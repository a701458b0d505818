/** ComputeStats for one dimension, in exact arithmetic: one pass for the sums and extrema, one for the histogram,
    and the merging of the episodes' statistics. */
module FeatureStats {
  import opened Collections
  import P = PairwiseSum
  import PS = PairwiseStats
  import M = MergeStats
  import H = Histogram

  function Times(a: real, b: real): real {
    a * b
  }

  function Itself(x: real): real {
    x
  }

  const EXACT: PS.Arithmetic<real> := PS.Arithmetic(0.0, P.Plus, Times, Itself)

  // What the reduction yields ----------------------------------------------------------------------------

  lemma {:induction false} SumsAgree(samples: seq<real>, leaf: nat -> real, square: nat -> real, n: nat)
    requires n <= |samples|
    requires forall i: nat :: i < |samples| ==> leaf(i) == samples[i]
    requires forall i: nat :: i < |samples| ==> square(i) == Times(samples[i], samples[i])
    ensures P.Sum(leaf, 0, n) == M.Sum(samples[..n]) && P.Sum(square, 0, n) == M.Squares(samples[..n])
  {
    if n > 0 {
      SumsAgree(samples, leaf, square, n - 1);
      assert samples[..n][..n - 1] == samples[..n - 1];
    }
  }

  lemma ExtremaAgree(samples: seq<real>, minimum: PS.Extremum, maximum: PS.Extremum)
    requires samples != []
    requires minimum == PS.LeastOf(samples, Itself, |samples|) && maximum == PS.GreatestOf(samples, Itself, |samples|)
    ensures minimum.Finite? && M.IsLeast(samples, minimum.value) && maximum.Finite? && M.IsGreatest(samples, maximum.value)
  {
    PS.ExtremaOccur(samples, Itself, |samples|);
    forall i | 0 <= i < |samples|
      ensures minimum.Finite? && minimum.value <= samples[i] && maximum.Finite? && samples[i] <= maximum.value
    {
      PS.ExtremaBound(samples, Itself, |samples|, i);
    }
  }

  lemma MeanIs(samples: seq<real>, sum: real, n: real, mean: real)
    requires n == |samples| as real > 0.0 && sum == M.Sum(samples) && mean == sum / n
    ensures M.IsMean(samples, mean)
  {
    M.TimesQuotient(sum, n);
  }

  lemma SomeVariance(samples: seq<real>, mean: real) returns (v: real)
    requires samples != []
    ensures M.IsVariance(samples, v, mean)
  {
    var n := |samples| as real;
    v := M.Deviations(samples, mean) / n;
    M.TimesQuotient(M.Deviations(samples, mean), n);
  }

  /** The sums determine the population variance. */
  lemma VarianceIs(samples: seq<real>, squares: real, n: real, mean: real, variance: real)
    requires n == |samples| as real > 0.0 && squares == M.Squares(samples) && M.IsMean(samples, mean)
    requires variance == M.Greatest(0.0, squares / n - mean * mean)
    ensures M.IsVariance(samples, variance, mean)
  {
    var v := SomeVariance(samples, mean);
    M.VarianceFromSums(samples, mean, v);
  }

  /** Sum, sum of squares, least and greatest sample, in one pass. */
  method Totals(samples: seq<real>) returns (sum: real, squareSum: real, minimum: real, maximum: real)
    requires samples != []
    ensures sum == M.Sum(samples) && squareSum == M.Squares(samples)
    ensures M.IsLeast(samples, minimum) && M.IsGreatest(samples, maximum)
  {
    var n := |samples|;
    var least, greatest;
    ghost var leaf, square;
    sum, squareSum, least, greatest, leaf, square := PS.Reduce(EXACT, samples);
    P.PairwiseIsExact(leaf, 0, n);
    P.PairwiseIsExact(square, 0, n);
    SumsAgree(samples, leaf, square, n);
    assert samples[..n] == samples;
    ExtremaAgree(samples, least, greatest);
    minimum, maximum := least.value, greatest.value;
  }

  // Ranks ------------------------------------------------------------------------------------------------

  /** The greatest sample below s. */
  lemma {:induction false} GreatestBelow(samples: seq<real>, n: nat, s: real) returns (t: real)
    requires n <= |samples| && H.Below(samples, n, s) > 0
    ensures t in samples && t < s && forall i :: 0 <= i < n && samples[i] < s ==> samples[i] <= t
  {
    var last := samples[n - 1];
    if H.Below(samples, n - 1, s) == 0 {
      t := last;
      NoneBelow(samples, n - 1, s);
    } else {
      t := GreatestBelow(samples, n - 1, s);
      t := if t < last < s then last else t;
    }
  }

  lemma {:induction false} NoneBelow(samples: seq<real>, n: nat, s: real)
    requires n <= |samples| && H.Below(samples, n, s) == 0
    ensures forall i :: 0 <= i < n ==> s <= samples[i]
  {
    if n > 0 {
      NoneBelow(samples, n - 1, s);
    }
  }

  lemma {:induction false} SameCount(samples: seq<real>, n: nat, t: real, s: real)
    requires n <= |samples| && t < s && forall i :: 0 <= i < n && samples[i] < s ==> samples[i] <= t
    ensures H.AtMost(samples, n, t) == H.Below(samples, n, s)
  {
    if n > 0 {
      SameCount(samples, n - 1, t, s);
    }
  }

  lemma {:induction false} BelowIsLess(samples: seq<real>, n: nat, t: real, s: real)
    requires n <= |samples| && t < s
    ensures H.Below(samples, n, t) <= H.Below(samples, n, s)
    ensures t in samples[..n] ==> H.Below(samples, n, t) < H.Below(samples, n, s)
  {
    if n > 0 {
      assert samples[..n] == samples[..n - 1] + [samples[n - 1]];
      BelowIsLess(samples, n - 1, t, s);
    }
  }

  /** Going down from s to the k-th smallest sample. */
  lemma {:induction false} RankFrom(samples: seq<real>, k: nat, s: real) returns (r: real)
    requires 0 < k && s in samples && k <= H.AtMost(samples, |samples|, s)
    ensures H.IsKthSmallest(samples, k, r)
    decreases H.Below(samples, |samples|, s)
  {
    r := s;
    if k <= H.Below(samples, |samples|, s) {
      var t := GreatestBelow(samples, |samples|, s);
      SameCount(samples, |samples|, t, s);
      assert samples[..|samples|] == samples;
      BelowIsLess(samples, |samples|, t, s);
      r := RankFrom(samples, k, t);
    }
  }

  lemma {:induction false} AllAtMost(samples: seq<real>, n: nat, x: real)
    requires n <= |samples| && forall i :: 0 <= i < n ==> samples[i] <= x
    ensures H.AtMost(samples, n, x) == n
  {
    if n > 0 {
      AllAtMost(samples, n - 1, x);
    }
  }

  /** Every rank from 1 to the number of samples has a sample. */
  lemma RankExists(samples: seq<real>, k: nat, greatest: real) returns (s: real)
    requires 0 < k <= |samples| && M.IsGreatest(samples, greatest)
    ensures H.IsKthSmallest(samples, k, s)
  {
    AllAtMost(samples, |samples|, greatest);
    s := RankFrom(samples, k, greatest);
  }

  lemma RankOfQuantile(q: real, n: nat) returns (k: nat)
    requires 0.0 < q <= 1.0 && n > 0
    ensures 0 < k <= n && H.IsCeiling(k, q * n as real)
  {
    H.TargetOfQuantile(q, q, n);
    assert q * n as real > 0.0;
    k := -((-(q * n as real)).Floor);
  }

  // Quantiles --------------------------------------------------------------------------------------------

  /** x is within one bin of the ceil(q * n)-th smallest of the n samples. */
  ghost predicate NearQuantile(samples: seq<real>, q: real, x: real, width: real) {
    exists k: nat, s: real ::
      H.IsCeiling(k, q * |samples| as real) && H.IsKthSmallest(samples, k, s) && -width <= x - s <= width
  }

  /** Edge b of 5000 bins of equal width that reach 0.0000000001 beyond the extrema. */
  function EdgeAt(minimum: real, maximum: real, b: int): real {
    b as real * ((maximum - minimum + 0.0000000002) / 5000.0) + (minimum - 0.0000000001)
  }

  /** x is where the count of samples, taken to grow evenly within each bin, reaches q times their number. */
  ghost predicate IsQuantile(samples: seq<real>, minimum: real, maximum: real, q: real, x: real) {
    exists b: nat :: b < 5000 && IsQuantileIn(samples, minimum, maximum, q, x, b)
  }

  ghost predicate IsQuantileIn(samples: seq<real>, minimum: real, maximum: real, q: real, x: real, b: nat) {
    H.OnCurve(samples, EdgeAt(minimum, maximum, b), EdgeAt(minimum, maximum, b + 1), b == 0, q * |samples| as real, x)
  }

  function BinWidth(minimum: real, maximum: real): real {
    (maximum - minimum + 0.0000000002) / 5000.0
  }

  /** x is the quantile of the samples, and near the sample of its rank. */
  ghost predicate Is(samples: seq<real>, minimum: real, maximum: real, q: real, x: real) {
    && NearQuantile(samples, q, x, BinWidth(minimum, maximum))
    && if |samples| == 1 then x == samples[0] else IsQuantile(samples, minimum, maximum, q, x)
  }

  ghost predicate QuantilesAre(stats: M.Stats, samples: seq<real>) {
    && Is(samples, stats.min, stats.max, 0.01, stats.q01) && Is(samples, stats.min, stats.max, 0.10, stats.q10)
    && Is(samples, stats.min, stats.max, 0.50, stats.q50) && Is(samples, stats.min, stats.max, 0.90, stats.q90)
    && Is(samples, stats.min, stats.max, 0.99, stats.q99)
    && stats.q01 <= stats.q10 <= stats.q50 <= stats.q90 <= stats.q99
  }

  lemma EdgeIs(minimum: real, maximum: real, b: nat)
    requires b <= H.BIN_COUNT
    ensures H.Edge(minimum - H.MARGIN, maximum + H.MARGIN, H.BIN_COUNT, b) == EdgeAt(minimum, maximum, b)
    ensures H.Step(minimum - H.MARGIN, maximum + H.MARGIN, H.BIN_COUNT) == BinWidth(minimum, maximum)
  {
    H.LastEdge(minimum - H.MARGIN, maximum + H.MARGIN, H.BIN_COUNT);
  }

  /** A filled histogram over the samples. */
  ghost predicate IsHistogram(samples: seq<real>, minimum: real, maximum: real, counts: seq<nat>, edges: seq<real>) {
    && H.AreEdges(edges, minimum - H.MARGIN, maximum + H.MARGIN, H.BIN_COUNT) && |counts| == H.BIN_COUNT
    && H.CountsSamples(counts, edges, samples, |samples|)
  }

  /** `value` is the histogram's value for a target count. */
  ghost predicate Yields(value: real -> real, counts: seq<nat>, edges: seq<real>, target: real) {
    |edges| == |counts| + 1 && value(target) == H.AtTarget(counts, edges, target)
  }

  ghost predicate IsValueOf(value: real -> real, counts: seq<nat>, edges: seq<real>) {
    forall target: real :: Yields(value, counts, edges, target)
  }

  lemma ValueOf(counts: seq<nat>, edges: seq<real>) returns (value: real -> real)
    requires |edges| == |counts| + 1
    ensures IsValueOf(value, counts, edges)
  {
    value := target => if |edges| == |counts| + 1 then H.AtTarget(counts, edges, target) else 0.0;
    forall target: real ensures Yields(value, counts, edges, target) {
    }
  }

  /** `target` is the target count of a quantile of n samples. */
  ghost predicate Scales(target: real -> real, n: nat, q: real) {
    target(q) == q * n as real
  }

  ghost predicate IsTargetOf(target: real -> real, n: nat) {
    forall q: real :: Scales(target, n, q)
  }

  lemma TargetOf(n: nat) returns (target: real -> real)
    ensures IsTargetOf(target, n)
  {
    target := q => q * n as real;
    forall q: real ensures Scales(target, n, q) {
    }
  }

  lemma TargetsGrow(target: real -> real, n: nat, p: real, q: real)
    requires IsTargetOf(target, n) && p <= q <= 1.0
    ensures target(p) <= target(q) <= n as real
  {
    assert Scales(target, n, p) && Scales(target, n, q);
    H.TargetOfQuantile(p, q, n);
  }

  lemma ValueIsNear(samples: seq<real>, minimum: real, maximum: real, counts: seq<nat>, edges: seq<real>, value: real -> real,
                    t: real, k: nat, s: real)
    requires M.IsLeast(samples, minimum) && M.IsGreatest(samples, maximum) && t <= |samples| as real
    requires IsHistogram(samples, minimum, maximum, counts, edges) && IsValueOf(value, counts, edges)
    requires H.IsCeiling(k, t) && H.IsKthSmallest(samples, k, s)
    ensures -BinWidth(minimum, maximum) <= value(t) - s <= BinWidth(minimum, maximum)
  {
    assert Yields(value, counts, edges, t);
    EdgeIs(minimum, maximum, 0);
    H.QuantileIsWithinABin(counts, edges, samples, minimum, maximum, H.BIN_COUNT, t, k, s, BinWidth(minimum, maximum));
  }

  lemma ValueIsOnCurve(samples: seq<real>, minimum: real, maximum: real, counts: seq<nat>, edges: seq<real>,
                       value: real -> real, target: real -> real, q: real)
    requires M.IsLeast(samples, minimum) && M.IsGreatest(samples, maximum) && q <= 1.0
    requires IsHistogram(samples, minimum, maximum, counts, edges) && IsValueOf(value, counts, edges)
    requires IsTargetOf(target, |samples|)
    ensures IsQuantile(samples, minimum, maximum, q, value(target(q)))
  {
    var t := target(q);
    TargetsGrow(target, |samples|, q, q);
    assert Scales(target, |samples|, q) && Yields(value, counts, edges, t);
    AllCounted(samples, minimum, maximum, counts, edges);
    var b := H.TargetIsOnCurve(counts, edges, samples, t);
    EdgeIs(minimum, maximum, b);
    EdgeIs(minimum, maximum, b + 1);
    assert IsQuantileIn(samples, minimum, maximum, q, value(t), b);
  }

  lemma AllCounted(samples: seq<real>, minimum: real, maximum: real, counts: seq<nat>, edges: seq<real>)
    requires M.IsGreatest(samples, maximum) && IsHistogram(samples, minimum, maximum, counts, edges)
    ensures H.CountsBelow(counts, |counts|) == |samples|
  {
    H.BinsHoldAllSamples(counts, edges, samples, maximum);
  }

  lemma ValuesGrow(minimum: real, maximum: real, counts: seq<nat>, edges: seq<real>, value: real -> real, a: real, b: real)
    requires minimum <= maximum && a <= b && IsValueOf(value, counts, edges)
    requires H.AreEdges(edges, minimum - H.MARGIN, maximum + H.MARGIN, H.BIN_COUNT)
    ensures value(a) <= value(b)
  {
    assert Yields(value, counts, edges, a) && Yields(value, counts, edges, b);
    H.EdgesAscend(edges, minimum - H.MARGIN, maximum + H.MARGIN, H.BIN_COUNT);
    H.QuantileIsMonotone(counts, edges, a, b);
  }

  /** The sample of a quantile's rank. */
  lemma RankedSample(samples: seq<real>, target: real -> real, q: real, greatest: real) returns (k: nat, s: real)
    requires M.IsGreatest(samples, greatest) && 0.0 < q <= 1.0 && IsTargetOf(target, |samples|)
    ensures H.IsCeiling(k, target(q)) && H.IsKthSmallest(samples, k, s)
  {
    assert Scales(target, |samples|, q);
    k := RankOfQuantile(q, |samples|);
    s := RankExists(samples, k, greatest);
  }

  lemma IsNearQuantile(samples: seq<real>, target: real -> real, q: real, k: nat, s: real, x: real, width: real)
    requires IsTargetOf(target, |samples|) && H.IsCeiling(k, target(q)) && H.IsKthSmallest(samples, k, s)
    requires -width <= x - s <= width
    ensures NearQuantile(samples, q, x, width)
  {
    assert Scales(target, |samples|, q);
  }

  lemma QuantileIsNear(samples: seq<real>, minimum: real, maximum: real, counts: seq<nat>, edges: seq<real>,
                       value: real -> real, target: real -> real, q: real)
    requires M.IsLeast(samples, minimum) && M.IsGreatest(samples, maximum) && 0.0 < q <= 1.0
    requires IsHistogram(samples, minimum, maximum, counts, edges) && IsValueOf(value, counts, edges)
    requires IsTargetOf(target, |samples|)
    requires |samples| > 1
    ensures Is(samples, minimum, maximum, q, value(target(q)))
  {
    ValueIsOnCurve(samples, minimum, maximum, counts, edges, value, target, q);
    TargetsGrow(target, |samples|, q, q);
    var k, s := RankedSample(samples, target, q, maximum);
    ValueIsNear(samples, minimum, maximum, counts, edges, value, target(q), k, s);
    IsNearQuantile(samples, target, q, k, s, value(target(q)), BinWidth(minimum, maximum));
  }

  /** The statistics of a single sample are the sample itself. */
  lemma SingleSample(samples: seq<real>, stats: M.Stats)
    requires |samples| == 1
    requires var x := samples[0]; stats == M.Stats(1, x, x, x, 0.0, x, x, x, x, x)
    ensures M.Describes(stats, samples) && QuantilesAre(stats, samples)
  {
    var x := samples[0];
    assert samples[..0] == [];
    forall q: real | 0.0 < q <= 1.0 ensures Is(samples, x, x, q, x) {
      var k := RankOfQuantile(q, 1);
      var s := RankExists(samples, k, x);
    }
  }

  // Statistics of an episode -----------------------------------------------------------------------------

  /** None for no samples, which the program refuses. */
  method ComputeStats(samples: seq<real>) returns (r: Option<M.Stats>)
    ensures r.None? <==> samples == []
    ensures r.Some? ==> M.Describes(r.value, samples) && QuantilesAre(r.value, samples)
  {
    if samples == [] {
      return None;
    }
    if |samples| == 1 {
      var x := samples[0];
      var single := M.Stats(1, x, x, x, 0.0, x, x, x, x, x);
      SingleSample(samples, single);
      return Some(single);
    }
    var count := |samples|;
    var sum, squareSum, minimum, maximum := Totals(samples);
    var mean := sum / count as real;
    var variance := M.Greatest(0.0, squareSum / count as real - mean * mean);
    MeanIs(samples, sum, count as real, mean);
    VarianceIs(samples, squareSum, count as real, mean, variance);
    var q01, q10, q50, q90, q99 := Quantiles(samples, minimum, maximum);
    r := Some(M.Stats(count, minimum, maximum, mean, variance, q01, q10, q50, q90, q99));
  }

  /** The five quantiles, from one histogram. */
  method Quantiles(samples: seq<real>, minimum: real, maximum: real) returns (q01: real, q10: real, q50: real, q90: real, q99: real)
    requires M.IsLeast(samples, minimum) && M.IsGreatest(samples, maximum)
    requires |samples| > 1
    ensures Is(samples, minimum, maximum, 0.01, q01) && Is(samples, minimum, maximum, 0.10, q10)
    ensures Is(samples, minimum, maximum, 0.50, q50) && Is(samples, minimum, maximum, 0.90, q90)
    ensures Is(samples, minimum, maximum, 0.99, q99)
    ensures q01 <= q10 <= q50 <= q90 <= q99
  {
    var counts, edges := H.BuildHistogram(samples, minimum, maximum, H.BIN_COUNT);
    ghost var value := ValueOf(counts, edges);
    ghost var target := TargetOf(|samples|);
    q01 := QuantileOf(samples, minimum, maximum, counts, edges, 0.01, 0.01, value, target);
    q10 := QuantileOf(samples, minimum, maximum, counts, edges, 0.01, 0.10, value, target);
    q50 := QuantileOf(samples, minimum, maximum, counts, edges, 0.10, 0.50, value, target);
    q90 := QuantileOf(samples, minimum, maximum, counts, edges, 0.50, 0.90, value, target);
    q99 := QuantileOf(samples, minimum, maximum, counts, edges, 0.90, 0.99, value, target);
  }

  /** One quantile, at least as high as that of p. */
  method QuantileOf(samples: seq<real>, ghost minimum: real, ghost maximum: real, counts: seq<nat>, edges: seq<real>,
                    ghost p: real, q: real, ghost value: real -> real, ghost target: real -> real)
    returns (x: real)
    requires M.IsLeast(samples, minimum) && M.IsGreatest(samples, maximum) && p <= q <= 1.0 && 0.0 < q
    requires |samples| > 1 && IsHistogram(samples, minimum, maximum, counts, edges)
    requires IsValueOf(value, counts, edges) && IsTargetOf(target, |samples|)
    ensures x == value(target(q)) && value(target(p)) <= x
    ensures Is(samples, minimum, maximum, q, x)
  {
    TargetsGrow(target, |samples|, p, q);
    ValuesGrow(minimum, maximum, counts, edges, value, target(p), target(q));
    QuantileIsNear(samples, minimum, maximum, counts, edges, value, target, q);
    x := ValueAt(counts, edges, |samples|, q, value, target);
  }

  method ValueAt(counts: seq<nat>, edges: seq<real>, n: nat, q: real, ghost value: real -> real, ghost target: real -> real)
    returns (x: real)
    requires |edges| == |counts| + 1 && IsValueOf(value, counts, edges) && IsTargetOf(target, n)
    ensures x == value(target(q))
  {
    assert Scales(target, n, q) && Yields(value, counts, edges, target(q));
    x := H.HistogramQuantile(counts, edges, n, q);
  }

  /** Statistics of every episode. */
  ghost predicate IsStatsOf(stats: M.Stats, samples: seq<real>) {
    M.Describes(stats, samples) && QuantilesAre(stats, samples)
  }

  /** The dataset's statistics, episode by episode: those of all samples together, and the outermost quantiles of
      the episodes. */
  method DatasetStats(episodes: seq<seq<real>>) returns (r: M.Stats, ghost all: seq<M.Stats>)
    requires episodes != [] && forall i :: 0 <= i < |episodes| ==> episodes[i] != []
    ensures M.Describes(r, M.Concat(episodes))
    ensures |all| == |episodes| && forall i :: 0 <= i < |all| ==> IsStatsOf(all[i], episodes[i])
    ensures forall k: nat :: k < 5 ==> M.QuantileMerges(r, all, k)
  {
    var aggregate := new M.Aggregate();
    all := [];
    for i := 0 to |episodes|
      invariant |all| == i && aggregate.target == M.Folded(all)
      invariant forall j :: 0 <= j < i ==> IsStatsOf(all[j], episodes[j])
    {
      var stats := ComputeStats(episodes[i]);
      aggregate.AddEpisode(stats.value, all);
      all := all + [stats.value];
    }
    r := aggregate.target;
    DatasetIs(all, episodes);
  }

  lemma DatasetIs(all: seq<M.Stats>, episodes: seq<seq<real>>)
    requires |all| == |episodes| > 0 && forall i :: 0 <= i < |all| ==> IsStatsOf(all[i], episodes[i])
    ensures M.Describes(M.Folded(all), M.Concat(episodes)) && forall k: nat :: k < 5 ==> M.QuantileMerges(M.Folded(all), all, k)
  {
    forall i | 0 <= i < |all| ensures M.Describes(all[i], episodes[i]) {
      assert IsStatsOf(all[i], episodes[i]);
    }
    M.FoldedDescribes(all, episodes);
    forall k: nat | k < 5 ensures M.QuantileMerges(M.Folded(all), all, k) {
      M.FoldedQuantiles(all, k);
    }
  }
}
