/** Histogram quantiles of one dimension, in exact arithmetic: equal-width bins between the extrema, and a
    quantile interpolated in the bin that the rank falls into. */
module Histogram {
  const BIN_COUNT: nat := 5000
  const MARGIN: real := 0.0000000001

  function Step(low: real, high: real, bins: nat): real
    requires bins > 0
  {
    (high - low) / bins as real
  }

  function Edge(low: real, high: real, bins: nat, i: nat): real
    requires bins > 0
  {
    if i == bins then high else i as real * Step(low, high, bins) + low
  }

  ghost predicate AreEdges(edges: seq<real>, low: real, high: real, bins: nat) {
    bins > 0 && |edges| == bins + 1 && forall i :: 0 <= i <= bins ==> edges[i] == Edge(low, high, bins, i)
  }

  lemma LastEdge(low: real, high: real, bins: nat)
    requires bins > 0
    ensures bins as real * Step(low, high, bins) + low == high
  {
  }

  lemma EdgeStep(low: real, high: real, bins: nat, i: nat)
    requires low < high && i < bins
    ensures Edge(low, high, bins, i + 1) == Edge(low, high, bins, i) + Step(low, high, bins)
    ensures Step(low, high, bins) > 0.0
  {
    var step := Step(low, high, bins);
    LastEdge(low, high, bins);
    assert (i + 1) as real * step == i as real * step + step;
  }

  ghost predicate Lower(edges: seq<real>, i: int, j: int) {
    0 <= i < |edges| && 0 <= j < |edges| && edges[i] < edges[j]
  }

  ghost predicate Ascending(edges: seq<real>) {
    forall i, j :: 0 <= i < j < |edges| ==> Lower(edges, i, j)
  }

  lemma EdgesAscend(edges: seq<real>, low: real, high: real, bins: nat)
    requires AreEdges(edges, low, high, bins) && low < high
    ensures Ascending(edges)
  {
    forall i, j | 0 <= i < j < |edges| ensures Lower(edges, i, j) {
      EdgesIncrease(edges, low, high, bins, i, j);
    }
  }

  lemma {:induction false} EdgesIncrease(edges: seq<real>, low: real, high: real, bins: nat, i: nat, j: nat)
    requires AreEdges(edges, low, high, bins) && low < high && i < j <= bins
    ensures edges[i] < edges[j]
  {
    EdgeStep(low, high, bins, j - 1);
    if i < j - 1 {
      EdgesIncrease(edges, low, high, bins, i, j - 1);
    }
  }

  // Counting samples -----------------------------------------------------------------------------------

  /** How many of the first n samples lie below x. */
  function Below(samples: seq<real>, n: nat, x: real): nat
    requires n <= |samples|
  {
    if n == 0 then 0 else Below(samples, n - 1, x) + if samples[n - 1] < x then 1 else 0
  }

  function AtMost(samples: seq<real>, n: nat, x: real): nat
    requires n <= |samples|
  {
    if n == 0 then 0 else AtMost(samples, n - 1, x) + if samples[n - 1] <= x then 1 else 0
  }

  lemma {:induction false} BelowIsMonotone(samples: seq<real>, n: nat, x: real, y: real)
    requires n <= |samples| && x <= y
    ensures Below(samples, n, x) <= Below(samples, n, y) <= n
  {
    if n > 0 {
      BelowIsMonotone(samples, n - 1, x, y);
    }
  }

  lemma {:induction false} AtMostIsBelow(samples: seq<real>, n: nat, x: real, y: real)
    requires n <= |samples| && x < y
    ensures AtMost(samples, n, x) <= Below(samples, n, y)
  {
    if n > 0 {
      AtMostIsBelow(samples, n - 1, x, y);
    }
  }

  /** s is a k-th smallest sample. */
  ghost predicate IsKthSmallest(samples: seq<real>, k: nat, s: real) {
    s in samples && Below(samples, |samples|, s) < k <= AtMost(samples, |samples|, s)
  }

  function CountsBelow(counts: seq<nat>, b: nat): nat
    requires b <= |counts|
  {
    if b == 0 then 0 else CountsBelow(counts, b - 1) + counts[b - 1]
  }

  lemma {:induction false} CountsGrow(counts: seq<nat>, a: nat, b: nat)
    requires a <= b <= |counts|
    ensures CountsBelow(counts, a) <= CountsBelow(counts, b)
  {
    if a < b {
      CountsGrow(counts, a, b - 1);
    }
  }

  lemma {:induction false} OneMoreInBin(counts: seq<nat>, bin: nat, b: nat)
    requires bin < |counts| && b <= |counts|
    ensures CountsBelow(counts[bin := counts[bin] + 1], b) == CountsBelow(counts, b) + if bin < b then 1 else 0
  {
    if b > 0 {
      OneMoreInBin(counts, bin, b - 1);
    }
  }

  /** The bins count the first n samples: as many below each edge as there are samples below it. */
  ghost predicate CountsSamples(counts: seq<nat>, edges: seq<real>, samples: seq<real>, n: nat) {
    && n <= |samples| && |edges| == |counts| + 1
    && forall b :: 0 <= b <= |counts| ==> CountsUpTo(counts, edges, samples, n, b)
  }

  ghost predicate CountsUpTo(counts: seq<nat>, edges: seq<real>, samples: seq<real>, n: nat, b: nat)
    requires n <= |samples| && |edges| == |counts| + 1 && b <= |counts|
  {
    CountsBelow(counts, b) == Below(samples, n, edges[b])
  }

  // Building -------------------------------------------------------------------------------------------

  method LinSpace(low: real, high: real, bins: nat) returns (edges: seq<real>)
    requires bins > 0
    ensures AreEdges(edges, low, high, bins)
  {
    var step := (high - low) / bins as real;
    edges := [];
    for index := 0 to bins + 1
      invariant |edges| == index
      invariant forall i :: 0 <= i < index ==> edges[i] == i as real * step + low
    {
      var product := index as real * step;
      edges := edges + [product + low];
    }
    edges := edges[bins := high];
  }

  /** First edge above the value. */
  method UpperBound(edges: seq<real>, value: real) returns (r: nat)
    requires Ascending(edges)
    ensures r <= |edges|
    ensures r > 0 ==> edges[r - 1] <= value
    ensures r < |edges| ==> value < edges[r]
  {
    r := 0;
    var end := |edges|;
    while r < end
      invariant r <= end <= |edges|
      invariant r > 0 ==> edges[r - 1] <= value
      invariant end < |edges| ==> value < edges[end]
    {
      var mid := (r + end) / 2;
      if value < edges[mid] {
        end := mid;
      } else {
        r := mid + 1;
      }
    }
  }

  /** The bin of a value; values outside the edges go to the outer bins. */
  method BinOf(edges: seq<real>, value: real) returns (bin: nat)
    requires |edges| > 1 && Ascending(edges)
    ensures bin + 1 < |edges|
    ensures edges[0] <= value < edges[|edges| - 1] ==> edges[bin] <= value < edges[bin + 1]
    ensures value < edges[0] ==> bin == 0
    ensures edges[|edges| - 1] <= value ==> bin == |edges| - 2
  {
    var above := UpperBound(edges, value);
    assert above > 1 ==> Lower(edges, 0, above - 1);
    assert above < |edges| - 1 ==> Lower(edges, above, |edges| - 1);
    if above == 0 {
      bin := 0;
    } else if above == |edges| {
      bin := |edges| - 2;
    } else {
      bin := above - 1;
    }
  }

  lemma SampleCounted(counts: seq<nat>, edges: seq<real>, samples: seq<real>, n: nat, m: nat, bin: nat)
    requires CountsSamples(counts, edges, samples, n) && n < |samples| && m == n + 1 && bin < |counts| && Ascending(edges)
    requires edges[bin] <= samples[n] < edges[bin + 1]
    ensures CountsSamples(counts[bin := counts[bin] + 1], edges, samples, m)
  {
    var more := counts[bin := counts[bin] + 1];
    forall b | 0 <= b <= |more| ensures CountsUpTo(more, edges, samples, m, b) {
      assert CountsUpTo(counts, edges, samples, n, b);
      OneMoreInBin(counts, bin, b);
      assert b < bin ==> Lower(edges, b, bin);
      assert bin + 1 < b ==> Lower(edges, bin + 1, b);
    }
  }

  lemma {:induction false} ZeroCounts(counts: seq<nat>, b: nat)
    requires b <= |counts| && forall i :: 0 <= i < |counts| ==> counts[i] == 0
    ensures CountsBelow(counts, b) == 0
  {
    if b > 0 {
      ZeroCounts(counts, b - 1);
    }
  }

  /** Count the samples into bins between the extrema, a little widened. */
  method BuildHistogram(samples: seq<real>, minimum: real, maximum: real, bins: nat) returns (counts: seq<nat>, edges: seq<real>)
    requires bins > 0 && minimum <= maximum && forall i :: 0 <= i < |samples| ==> minimum <= samples[i] <= maximum
    ensures AreEdges(edges, minimum - MARGIN, maximum + MARGIN, bins) && |counts| == bins
    ensures CountsSamples(counts, edges, samples, |samples|)
  {
    var low, high := minimum - MARGIN, maximum + MARGIN;
    edges := LinSpace(low, high, bins);
    EdgesAscend(edges, low, high, bins);
    EdgeStep(low, high, bins, 0);
    counts := seq(bins, _ => 0);
    forall b | 0 <= b <= bins ensures CountsUpTo(counts, edges, samples, 0, b) {
      ZeroCounts(counts, b);
    }
    for index := 0 to |samples|
      invariant |counts| == bins && CountsSamples(counts, edges, samples, index)
    {
      var bin := BinOf(edges, samples[index]);
      SampleCounted(counts, edges, samples, index, index + 1, bin);
      counts := counts[bin := counts[bin] + 1];
    }
  }

  /** Every sample is in a bin. */
  lemma BinsHoldAllSamples(counts: seq<nat>, edges: seq<real>, samples: seq<real>, maximum: real)
    requires CountsSamples(counts, edges, samples, |samples|) && maximum < edges[|counts|]
    requires forall i :: 0 <= i < |samples| ==> samples[i] <= maximum
    ensures CountsBelow(counts, |counts|) == |samples|
  {
    assert CountsUpTo(counts, edges, samples, |samples|, |counts|);
    AllBelow(samples, |samples|, edges[|counts|]);
  }

  lemma {:induction false} AllBelow(samples: seq<real>, n: nat, x: real)
    requires n <= |samples| && forall i :: 0 <= i < n ==> samples[i] < x
    ensures Below(samples, n, x) == n
  {
    if n > 0 {
      AllBelow(samples, n - 1, x);
    }
  }

  // Quantiles ------------------------------------------------------------------------------------------

  /** First bin that reaches the target count, or the number of bins. */
  function TargetBin(counts: seq<nat>, target: real, b: nat): (r: nat)
    requires b <= |counts|
    ensures b <= r <= |counts|
    ensures r < |counts| ==> CountsBelow(counts, r + 1) as real >= target
    ensures forall i :: b < i <= r ==> (CountsBelow(counts, i) as real) < target
    decreases |counts| - b
  {
    if b == |counts| || CountsBelow(counts, b + 1) as real >= target then b else TargetBin(counts, target, b + 1)
  }

  /** Between two edges, in proportion to how much of the bin's count the target takes. */
  function Interpolate(low: real, high: real, target: real, before: nat, count: nat): real
    requires count > 0
  {
    low + (target - before as real) / count as real * (high - low)
  }

  function InBin(counts: seq<nat>, edges: seq<real>, target: real, bin: nat): real
    requires bin < |counts| && |edges| == |counts| + 1
  {
    if bin == 0 || counts[bin] == 0 then edges[bin]
    else Interpolate(edges[bin], edges[bin + 1], target, CountsBelow(counts, bin), counts[bin])
  }

  /** The value for a target count. */
  function AtTarget(counts: seq<nat>, edges: seq<real>, target: real): real
    requires |edges| == |counts| + 1
  {
    var bin := TargetBin(counts, target, 0);
    if bin < |counts| then InBin(counts, edges, target, bin) else edges[|counts|]
  }

  method HistogramQuantile(histogram: seq<nat>, edges: seq<real>, count: nat, quantile: real) returns (r: real)
    requires |edges| == |histogram| + 1
    ensures r == AtTarget(histogram, edges, quantile * count as real)
  {
    var targetCount := quantile * count as real;
    var cumulative := 0;
    for bin := 0 to |histogram|
      invariant cumulative == CountsBelow(histogram, bin)
      invariant TargetBin(histogram, targetCount, 0) == TargetBin(histogram, targetCount, bin)
    {
      var before := cumulative;
      cumulative := cumulative + histogram[bin];
      if (cumulative as real) < targetCount {
        continue;
      }
      if bin == 0 || histogram[bin] == 0 {
        return edges[bin];
      }
      var fraction := (targetCount - before as real) / histogram[bin] as real;
      var interpolation := fraction * (edges[bin + 1] - edges[bin]);
      return edges[bin] + interpolation;
    }
    r := edges[|edges| - 1];
  }

  // Arithmetic -----------------------------------------------------------------------------------------

  lemma Scaled(fraction: real, width: real)
    requires 0.0 <= fraction <= 1.0 && width >= 0.0
    ensures 0.0 <= fraction * width <= width
  {
  }

  lemma FactorIsNotPositive(q: real, c: real)
    requires q * c <= 0.0 && c > 0.0
    ensures q <= 0.0
  {
  }

  lemma QuotientIsMonotone(x: real, y: real, c: real)
    requires x <= y && c > 0.0
    ensures x / c <= y / c
  {
    var p, q := x / c, y / c;
    assert p * c == x && q * c == y;
    assert (p - q) * c == x - y;
    FactorIsNotPositive(p - q, c);
  }

  lemma QuotientIsBetween(x: real, c: real)
    requires 0.0 <= x <= c && c > 0.0
    ensures 0.0 <= x / c <= 1.0
  {
    QuotientIsMonotone(0.0, x, c);
    QuotientIsMonotone(x, c, c);
  }

  lemma ProductIsMonotone(x: real, y: real, c: real)
    requires x <= y && c >= 0.0
    ensures x * c <= y * c
  {
    assert (y - x) * c >= 0.0;
  }

  lemma InterpolationIsBetween(low: real, high: real, target: real, before: nat, count: nat)
    requires count > 0 && low <= high && before as real <= target <= (before + count) as real
    ensures low <= Interpolate(low, high, target, before, count) <= high
  {
    var x, c := target - before as real, count as real;
    QuotientIsBetween(x, c);
    Scaled(x / c, high - low);
  }

  lemma InterpolationIsMonotone(low: real, high: real, a: real, b: real, before: nat, count: nat)
    requires count > 0 && low <= high && a <= b
    ensures Interpolate(low, high, a, before, count) <= Interpolate(low, high, b, before, count)
  {
    var c := count as real;
    QuotientIsMonotone(a - before as real, b - before as real, c);
    ProductIsMonotone((a - before as real) / c, (b - before as real) / c, high - low);
  }

  // What a quantile means --------------------------------------------------------------------------------

  /** The target bin holds the rank: fewer samples than the target lie before it, enough up to its end. */
  lemma TargetBinHoldsRank(counts: seq<nat>, target: real)
    ensures var bin := TargetBin(counts, target, 0);
            && (bin > 0 ==> (CountsBelow(counts, bin) as real) < target)
            && (bin < |counts| ==> CountsBelow(counts, bin + 1) as real >= target)
            && (0 < bin < |counts| ==> counts[bin] > 0)
  {
  }

  /** The result lies in the target bin. */
  lemma InBinIsBetween(counts: seq<nat>, edges: seq<real>, target: real)
    requires |edges| == |counts| + 1 && Ascending(edges) && TargetBin(counts, target, 0) < |counts|
    ensures var bin := TargetBin(counts, target, 0);
            edges[bin] <= InBin(counts, edges, target, bin) <= edges[bin + 1]
  {
    var bin := TargetBin(counts, target, 0);
    TargetBinHoldsRank(counts, target);
    assert Lower(edges, bin, bin + 1);
    if bin > 0 {
      InterpolationIsBetween(edges[bin], edges[bin + 1], target, CountsBelow(counts, bin), counts[bin]);
    }
  }

  /** k == ceil(target). */
  ghost predicate IsCeiling(k: nat, target: real) {
    (k as real - 1.0) < target <= k as real
  }

  lemma RankIsNotBefore(counts: seq<nat>, edges: seq<real>, samples: seq<real>, bin: nat, target: real, k: nat, s: real)
    requires CountsSamples(counts, edges, samples, |samples|) && bin <= |counts|
    requires (CountsBelow(counts, bin) as real) < target && IsCeiling(k, target) && IsKthSmallest(samples, k, s)
    ensures edges[bin] <= s
  {
    assert CountsUpTo(counts, edges, samples, |samples|, bin);
    if s < edges[bin] {
      AtMostIsBelow(samples, |samples|, s, edges[bin]);
    }
  }

  lemma RankIsNotAfter(counts: seq<nat>, edges: seq<real>, samples: seq<real>, bin: nat, target: real, k: nat, s: real)
    requires CountsSamples(counts, edges, samples, |samples|) && bin <= |counts|
    requires CountsBelow(counts, bin) as real >= target && IsCeiling(k, target) && IsKthSmallest(samples, k, s)
    ensures s < edges[bin]
  {
    assert CountsUpTo(counts, edges, samples, |samples|, bin);
    if edges[bin] <= s {
      BelowIsMonotone(samples, |samples|, edges[bin], s);
    }
  }

  /** The k-th smallest sample is in the target bin, for k the ceiling of the target. */
  lemma RankIsInBin(counts: seq<nat>, edges: seq<real>, samples: seq<real>, target: real, k: nat, s: real)
    requires CountsSamples(counts, edges, samples, |samples|)
    requires IsCeiling(k, target) && IsKthSmallest(samples, k, s)
    requires TargetBin(counts, target, 0) < |counts| && edges[0] <= s
    ensures var bin := TargetBin(counts, target, 0); edges[bin] <= s < edges[bin + 1]
  {
    var bin := TargetBin(counts, target, 0);
    TargetBinHoldsRank(counts, target);
    RankIsNotAfter(counts, edges, samples, bin + 1, target, k, s);
    if bin > 0 {
      RankIsNotBefore(counts, edges, samples, bin, target, k, s);
    }
  }

  lemma WithinOneBin(counts: seq<nat>, edges: seq<real>, samples: seq<real>, target: real, k: nat, s: real, width: real)
    requires CountsSamples(counts, edges, samples, |samples|) && Ascending(edges)
    requires IsCeiling(k, target) && IsKthSmallest(samples, k, s) && |counts| > 0
    requires target <= CountsBelow(counts, |counts|) as real && edges[0] <= s
    requires forall b :: 0 <= b < |counts| ==> edges[b + 1] == edges[b] + width
    ensures -width <= AtTarget(counts, edges, target) - s <= width
  {
    var bin := TargetBin(counts, target, 0);
    TargetBinHoldsRank(counts, target);
    RankIsInBin(counts, edges, samples, target, k, s);
    InBinIsBetween(counts, edges, target);
  }

  /** For every sample set, the value for a target count is within one bin width of the sample of its rank. */
  lemma QuantileIsWithinABin(counts: seq<nat>, edges: seq<real>, samples: seq<real>, minimum: real, maximum: real, bins: nat,
                             target: real, k: nat, s: real, width: real)
    requires AreEdges(edges, minimum - MARGIN, maximum + MARGIN, bins) && |counts| == bins && minimum <= maximum
    requires CountsSamples(counts, edges, samples, |samples|)
    requires forall i :: 0 <= i < |samples| ==> minimum <= samples[i] <= maximum
    requires target <= |samples| as real && IsCeiling(k, target) && IsKthSmallest(samples, k, s)
    requires width == Step(minimum - MARGIN, maximum + MARGIN, bins)
    ensures -width <= AtTarget(counts, edges, target) - s <= width
  {
    EdgesAscend(edges, minimum - MARGIN, maximum + MARGIN, bins);
    EvenlySpaced(edges, minimum - MARGIN, maximum + MARGIN, bins, width);
    BinsHoldAllSamples(counts, edges, samples, maximum);
    WithinOneBin(counts, edges, samples, target, k, s, width);
  }

  lemma EvenlySpaced(edges: seq<real>, low: real, high: real, bins: nat, width: real)
    requires AreEdges(edges, low, high, bins) && low < high && width == Step(low, high, bins)
    ensures edges[0] == low && edges[bins] == high
    ensures forall b :: 0 <= b < bins ==> edges[b + 1] == edges[b] + width
  {
    EdgeStep(low, high, bins, 0);
    forall b | 0 <= b < bins ensures edges[b + 1] == edges[b] + width {
      EdgeStep(low, high, bins, b);
    }
  }

  /** The target of a quantile up to 1 is at most the number of samples, and grows with the quantile. */
  lemma TargetOfQuantile(p: real, q: real, n: nat)
    requires p <= q <= 1.0
    ensures p * n as real <= q * n as real <= n as real
  {
    ProductIsMonotone(p, q, n as real);
    ProductIsMonotone(q, 1.0, n as real);
  }

  /** A higher target never reaches an earlier bin. */
  lemma TargetBinIsMonotone(counts: seq<nat>, a: real, b: real)
    requires a <= b
    ensures TargetBin(counts, a, 0) <= TargetBin(counts, b, 0)
  {
  }

  /** Quantiles grow with the target. */
  lemma QuantileIsMonotone(counts: seq<nat>, edges: seq<real>, a: real, b: real)
    requires |edges| == |counts| + 1 && Ascending(edges) && a <= b
    ensures AtTarget(counts, edges, a) <= AtTarget(counts, edges, b)
  {
    TargetBinIsMonotone(counts, a, b);
    var i, j := TargetBin(counts, a, 0), TargetBin(counts, b, 0);
    if i < |counts| {
      InBinIsBetween(counts, edges, a);
      assert i + 1 < j ==> Lower(edges, i + 1, j);
      assert i + 1 < |counts| ==> Lower(edges, i + 1, |counts|);
      if j < |counts| {
        InBinIsBetween(counts, edges, b);
        if i == j && i > 0 && counts[i] > 0 {
          assert Lower(edges, i, i + 1);
          InterpolationIsMonotone(edges[i], edges[i + 1], a, b, CountsBelow(counts, i), counts[i]);
        }
      }
    }
  }

  /** x is where the number of samples below it, taken to grow evenly from `low` to `high`, reaches the target; in the
      first bin it is the lower edge. */
  ghost predicate OnCurve(samples: seq<real>, low: real, high: real, isFirst: bool, target: real, x: real) {
    var before, upTo := Below(samples, |samples|, low), Below(samples, |samples|, high);
    && target <= upTo as real
    && if isFirst then x == low
       else (before as real) < target && (x - low) * (upTo - before) as real == (target - before as real) * (high - low)
  }

  lemma InterpolationIsEven(low: real, high: real, target: real, before: nat, count: nat, x: real)
    requires count > 0 && x == Interpolate(low, high, target, before, count)
    ensures (x - low) * count as real == (target - before as real) * (high - low)
  {
    var t, c, w := target - before as real, count as real, high - low;
    assert t / c * c == t;
    assert (t / c * w) * c == (t / c * c) * w;
  }

  lemma InBinIsOnCurve(counts: seq<nat>, edges: seq<real>, samples: seq<real>, target: real, bin: nat)
    requires bin < |counts| && |edges| == |counts| + 1
    requires CountsUpTo(counts, edges, samples, |samples|, bin) && CountsUpTo(counts, edges, samples, |samples|, bin + 1)
    requires target <= CountsBelow(counts, bin + 1) as real && (bin > 0 ==> (CountsBelow(counts, bin) as real) < target)
    ensures OnCurve(samples, edges[bin], edges[bin + 1], bin == 0, target, InBin(counts, edges, target, bin))
  {
    if bin > 0 {
      InterpolationIsEven(edges[bin], edges[bin + 1], target, CountsBelow(counts, bin), counts[bin],
                          InBin(counts, edges, target, bin));
    }
  }

  /** The value for a target count is where the count of the samples reaches it. */
  lemma TargetIsOnCurve(counts: seq<nat>, edges: seq<real>, samples: seq<real>, target: real) returns (bin: nat)
    requires CountsSamples(counts, edges, samples, |samples|) && |counts| > 0
    requires target <= CountsBelow(counts, |counts|) as real
    ensures bin < |counts| && OnCurve(samples, edges[bin], edges[bin + 1], bin == 0, target, AtTarget(counts, edges, target))
  {
    bin := TargetBin(counts, target, 0);
    TargetBinHoldsRank(counts, target);
    assert CountsUpTo(counts, edges, samples, |samples|, bin) && CountsUpTo(counts, edges, samples, |samples|, bin + 1);
    InBinIsOnCurve(counts, edges, samples, target, bin);
  }
}
