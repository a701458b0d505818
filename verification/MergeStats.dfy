/** Statistics of one dimension and their merging across episodes, in exact arithmetic. The variance
    stands for the square of the standard deviation. */
module MergeStats {
  datatype Stats = Stats(count: nat, min: real, max: real, mean: real, variance: real,
                         q01: real, q10: real, q50: real, q90: real, q99: real)

  const NOTHING := Stats(0, 0.0, 0.0, 0.0, 0.0, 0.0, 0.0, 0.0, 0.0, 0.0)

  function Least(a: real, b: real): real {
    if b < a then b else a
  }

  function Greatest(a: real, b: real): real {
    if a < b then b else a
  }

  // What the statistics mean ---------------------------------------------------------------------------

  function Sum(samples: seq<real>): real {
    if samples == [] then 0.0 else Sum(samples[..|samples| - 1]) + samples[|samples| - 1]
  }

  function Squares(samples: seq<real>): real {
    if samples == [] then 0.0 else Squares(samples[..|samples| - 1]) + samples[|samples| - 1] * samples[|samples| - 1]
  }

  /** Sum of the squared distances from m. */
  function Deviations(samples: seq<real>, m: real): real {
    if samples == [] then 0.0
    else
      Deviations(samples[..|samples| - 1], m)
      + (samples[|samples| - 1] - m) * (samples[|samples| - 1] - m)
  }

  ghost predicate IsMean(samples: seq<real>, m: real) {
    m * |samples| as real == Sum(samples)
  }

  /** v is the mean squared distance from the mean. */
  ghost predicate IsVariance(samples: seq<real>, v: real, m: real) {
    v * |samples| as real == Deviations(samples, m)
  }

  ghost predicate IsLeast(samples: seq<real>, x: real) {
    x in samples && forall i :: 0 <= i < |samples| ==> x <= samples[i]
  }

  ghost predicate IsGreatest(samples: seq<real>, x: real) {
    x in samples && forall i :: 0 <= i < |samples| ==> samples[i] <= x
  }

  /** The count, extrema, mean and population variance of the samples. */
  ghost predicate Describes(s: Stats, samples: seq<real>) {
    && s.count == |samples| > 0
    && IsLeast(samples, s.min) && IsGreatest(samples, s.max)
    && IsMean(samples, s.mean) && IsVariance(samples, s.variance, s.mean)
  }

  // Sums of concatenations -----------------------------------------------------------------------------

  lemma {:induction false} SumAppends(a: seq<real>, b: seq<real>)
    ensures Sum(a + b) == Sum(a) + Sum(b)
  {
    if b == [] {
      assert a + b == a;
    } else {
      assert (a + b)[..|a + b| - 1] == a + b[..|b| - 1];
      SumAppends(a, b[..|b| - 1]);
    }
  }

  lemma {:induction false} SquaresAppends(a: seq<real>, b: seq<real>)
    ensures Squares(a + b) == Squares(a) + Squares(b)
  {
    if b == [] {
      assert a + b == a;
    } else {
      assert (a + b)[..|a + b| - 1] == a + b[..|b| - 1];
      SquaresAppends(a, b[..|b| - 1]);
    }
  }

  lemma DeviationStep(dev: real, q: real, s: real, n: real, m: real, x: real, s': real, n': real)
    requires dev == q - 2.0 * m * s + n * m * m && s' == s + x && n' == n + 1.0
    ensures dev + (x - m) * (x - m) == (q + x * x) - 2.0 * m * s' + n' * m * m
  {
  }

  /** Deviations in terms of the sums that the reduction collects. */
  lemma {:induction false} DeviationsAre(samples: seq<real>, m: real)
    ensures Deviations(samples, m) == Squares(samples) - 2.0 * m * Sum(samples) + |samples| as real * m * m
  {
    if samples != [] {
      var front, x := samples[..|samples| - 1], samples[|samples| - 1];
      DeviationsAre(front, m);
      DeviationStep(Deviations(front, m), Squares(front), Sum(front), |front| as real, m, x, Sum(samples), |samples| as real);
    }
  }

  lemma {:induction false} DeviationsNonNegative(samples: seq<real>, m: real)
    ensures Deviations(samples, m) >= 0.0
  {
    if samples != [] {
      DeviationsNonNegative(samples[..|samples| - 1], m);
      SquareIsNonNegative(samples[|samples| - 1] - m);
    }
  }

  lemma SquareIsNonNegative(d: real)
    ensures d * d >= 0.0
  {
  }

  lemma NonNegativeFactor(v: real, n: real)
    requires n > 0.0 && v * n >= 0.0
    ensures v >= 0.0
  {
  }

  /** Around its own mean, the deviations are squares minus mean times sum. */
  lemma AroundMean(dev: real, q: real, s: real, n: real, m: real)
    requires m * n == s && dev == q - 2.0 * m * s + n * m * m
    ensures dev == q - m * s
  {
    assert n * m * m == (m * n) * m;
  }

  /** Number, sum and sum of squares determine mean and variance, and the other way round. */
  ghost predicate HasMoments(m: real, v: real, n: real, s: real, q: real) {
    n > 0.0 && m * n == s && v * n == q - m * s
  }

  lemma MomentsMean(dev: real, q: real, s: real, n: real, m: real, v: real)
    requires n > 0.0 && dev == q - 2.0 * m * s + n * m * m
    ensures m * n == s && v * n == dev <==> HasMoments(m, v, n, s, q)
  {
    if m * n == s {
      AroundMean(dev, q, s, n, m);
    }
  }

  lemma MomentsOfSamples(samples: seq<real>, m: real, v: real)
    requires samples != []
    ensures IsMean(samples, m) && IsVariance(samples, v, m) <==>
            HasMoments(m, v, |samples| as real, Sum(samples), Squares(samples))
  {
    DeviationsAre(samples, m);
    MomentsMean(Deviations(samples, m), Squares(samples), Sum(samples), |samples| as real, m, v);
  }

  lemma MeanSquare(m: real, v: real, n: real, s: real, q: real)
    requires HasMoments(m, v, n, s, q)
    ensures v == q / n - m * m
  {
    assert (v + m * m) * n == q;
    Quotient(q, v + m * m, n);
  }

  lemma Quotient(x: real, y: real, n: real)
    requires n > 0.0 && x == y * n
    ensures x / n == y
  {
  }

  lemma VarianceIsNotNegative(samples: seq<real>, m: real, v: real)
    requires samples != [] && IsVariance(samples, v, m)
    ensures v >= 0.0
  {
    DeviationsNonNegative(samples, m);
    NonNegativeFactor(v, |samples| as real);
  }

  /** What ComputeStats evaluates, the mean of the squares minus the square of the mean and at least zero,
      is the population variance. */
  lemma VarianceFromSums(samples: seq<real>, m: real, v: real)
    requires samples != [] && IsMean(samples, m) && IsVariance(samples, v, m)
    ensures v == Greatest(0.0, Squares(samples) / |samples| as real - m * m)
  {
    VarianceIsNotNegative(samples, m, v);
    MomentsOfSamples(samples, m, v);
    MeanSquare(m, v, |samples| as real, Sum(samples), Squares(samples));
  }

  // Merging --------------------------------------------------------------------------------------------

  function MergedMean(a: Stats, b: Stats): real
    requires a.count > 0
  {
    (a.mean * a.count as real + b.mean * b.count as real) / (a.count as real + b.count as real)
  }

  /** The merged variance around the merged mean. */
  function VarianceAround(a: Stats, b: Stats, mean: real): real
    requires a.count > 0
  {
    ((a.variance + (a.mean - mean) * (a.mean - mean)) * a.count as real
     + (b.variance + (b.mean - mean) * (b.mean - mean)) * b.count as real) / (a.count as real + b.count as real)
  }

  function Merged(a: Stats, b: Stats): Stats {
    if a.count == 0 then b
    else
      Stats(a.count + b.count, Least(a.min, b.min), Greatest(a.max, b.max), MergedMean(a, b),
            Greatest(0.0, VarianceAround(a, b, MergedMean(a, b))),
            Least(a.q01, b.q01), Least(a.q10, b.q10), Least(a.q50, b.q50), Greatest(a.q90, b.q90), Greatest(a.q99, b.q99))
  }

  lemma PartAround(v: real, m: real, mean: real, n: real, s: real, q: real)
    requires HasMoments(m, v, n, s, q)
    ensures (v + (m - mean) * (m - mean)) * n == q - 2.0 * mean * s + n * mean * mean
  {
    assert (m - mean) * (m - mean) * n == m * (m * n) - 2.0 * mean * (m * n) + n * mean * mean;
  }

  lemma TimesQuotient(x: real, n: real)
    requires n > 0.0
    ensures x / n * n == x
  {
  }

  /** Two parts around the common mean. */
  lemma PartsTogether(p1: real, p2: real, q1: real, q2: real, s1: real, s2: real, n1: real, n2: real, mean: real)
    requires p1 == q1 - 2.0 * mean * s1 + n1 * mean * mean && p2 == q2 - 2.0 * mean * s2 + n2 * mean * mean
    requires mean * (n1 + n2) == s1 + s2
    ensures p1 + p2 == (q1 + q2) - mean * (s1 + s2)
  {
    assert mean * (mean * (n1 + n2)) == mean * (s1 + s2);
  }

  lemma PartsMoments(m1: real, v1: real, n1: real, s1: real, q1: real, m2: real, v2: real, n2: real, s2: real, q2: real,
                     mean: real, v: real, p1: real, p2: real)
    requires HasMoments(m1, v1, n1, s1, q1) && HasMoments(m2, v2, n2, s2, q2)
    requires p1 == (v1 + (m1 - mean) * (m1 - mean)) * n1 && p2 == (v2 + (m2 - mean) * (m2 - mean)) * n2
    requires mean * (n1 + n2) == s1 + s2
    ensures p1 + p2 == (q1 + q2) - mean * (s1 + s2)
  {
    PartAround(v1, m1, mean, n1, s1, q1);
    PartAround(v2, m2, mean, n2, s2, q2);
    PartsTogether(p1, p2, q1, q2, s1, s2, n1, n2, mean);
  }

  lemma MergedMeanIs(a: Stats, b: Stats, s1: real, s2: real, mean: real)
    requires a.count > 0 && a.mean * a.count as real == s1 && b.mean * b.count as real == s2 && mean == MergedMean(a, b)
    ensures mean * (a.count as real + b.count as real) == s1 + s2
  {
    TimesQuotient(s1 + s2, a.count as real + b.count as real);
  }

  lemma VarianceAroundIs(a: Stats, b: Stats, mean: real, v: real, p1: real, p2: real)
    requires a.count > 0 && v == VarianceAround(a, b, mean)
    requires p1 == (a.variance + (a.mean - mean) * (a.mean - mean)) * a.count as real
    requires p2 == (b.variance + (b.mean - mean) * (b.mean - mean)) * b.count as real
    ensures v * (a.count as real + b.count as real) == p1 + p2
  {
    TimesQuotient(p1 + p2, a.count as real + b.count as real);
  }

  /** The core of merging: moments add up. */
  lemma MomentsMerge(a: Stats, b: Stats, s1: real, q1: real, s2: real, q2: real, mean: real, v: real)
    requires HasMoments(a.mean, a.variance, a.count as real, s1, q1) && HasMoments(b.mean, b.variance, b.count as real, s2, q2)
    requires mean == MergedMean(a, b) && v == VarianceAround(a, b, mean)
    ensures HasMoments(mean, v, a.count as real + b.count as real, s1 + s2, q1 + q2)
  {
    var n1, n2 := a.count as real, b.count as real;
    var p1, p2 := (a.variance + (a.mean - mean) * (a.mean - mean)) * n1, (b.variance + (b.mean - mean) * (b.mean - mean)) * n2;
    MergedMeanIs(a, b, s1, s2, mean);
    VarianceAroundIs(a, b, mean, v, p1, p2);
    PartsMoments(a.mean, a.variance, n1, s1, q1, b.mean, b.variance, n2, s2, q2, mean, v, p1, p2);
  }

  /** Merging keeps mean and population variance. */
  lemma MeansMerge(a: Stats, b: Stats, x: seq<real>, y: seq<real>, mean: real, v: real)
    requires Describes(a, x) && Describes(b, y)
    requires mean == MergedMean(a, b) && v == VarianceAround(a, b, mean)
    ensures IsMean(x + y, mean) && IsVariance(x + y, v, mean)
  {
    MomentsOfSamples(x, a.mean, a.variance);
    MomentsOfSamples(y, b.mean, b.variance);
    MomentsMerge(a, b, Sum(x), Squares(x), Sum(y), Squares(y), mean, v);
    SumAppends(x, y);
    SquaresAppends(x, y);
    assert |x + y| as real == a.count as real + b.count as real;
    MomentsOfSamples(x + y, mean, v);
  }

  lemma ExtremaMerge(a: Stats, b: Stats, x: seq<real>, y: seq<real>)
    requires Describes(a, x) && Describes(b, y)
    ensures IsLeast(x + y, Least(a.min, b.min)) && IsGreatest(x + y, Greatest(a.max, b.max))
  {
  }

  /** Merging the statistics of two sample sets gives those of all their samples. */
  lemma MergedDescribes(a: Stats, b: Stats, x: seq<real>, y: seq<real>)
    requires Describes(a, x) && Describes(b, y)
    ensures Describes(Merged(a, b), x + y)
  {
    var mean := MergedMean(a, b);
    var v := VarianceAround(a, b, mean);
    MeansMerge(a, b, x, y, mean, v);
    VarianceIsNotNegative(x + y, mean, v);
    ExtremaMerge(a, b, x, y);
  }

  function Folded(episodes: seq<Stats>): Stats {
    if episodes == [] then NOTHING else Merged(Folded(episodes[..|episodes| - 1]), episodes[|episodes| - 1])
  }

  /** MergeStats changes the target in place. */
  class Aggregate {
    var target: Stats

    constructor ()
      ensures target == NOTHING
    {
      target := NOTHING;
    }

    method MergeStats(source: Stats)
      modifies this
      ensures target == Merged(old(target), source)
    {
      if target.count == 0 {
        target := source;
        return;
      }
      var targetCount, sourceCount := target.count as real, source.count as real;
      var totalCount := targetCount + sourceCount;
      var totalMean := (target.mean * targetCount + source.mean * sourceCount) / totalCount;
      assert totalMean == MergedMean(target, source);
      var targetDelta, sourceDelta := target.mean - totalMean, source.mean - totalMean;
      var targetComponent := target.variance + targetDelta * targetDelta;
      var sourceComponent := source.variance + sourceDelta * sourceDelta;
      var totalVariance := (targetComponent * targetCount + sourceComponent * sourceCount) / totalCount;
      assert totalVariance == VarianceAround(target, source, totalMean);
      target := Stats(target.count + source.count, Least(target.min, source.min), Greatest(target.max, source.max),
                      totalMean, Greatest(0.0, totalVariance),
                      Least(target.q01, source.q01), Least(target.q10, source.q10), Least(target.q50, source.q50),
                      Greatest(target.q90, source.q90), Greatest(target.q99, source.q99));
    }

    /** One episode more. */
    method AddEpisode(source: Stats, ghost episodes: seq<Stats>)
      requires target == Folded(episodes)
      modifies this
      ensures target == Folded(episodes + [source])
    {
      assert (episodes + [source])[..|episodes|] == episodes;
      MergeStats(source);
    }
  }

  function Concat(samples: seq<seq<real>>): seq<real> {
    if samples == [] then [] else Concat(samples[..|samples| - 1]) + samples[|samples| - 1]
  }

  /** For any list of episodes, the merged statistics are those of all their samples together. */
  lemma {:induction false} FoldedDescribes(episodes: seq<Stats>, samples: seq<seq<real>>)
    requires |episodes| == |samples| > 0 && forall i :: 0 <= i < |episodes| ==> Describes(episodes[i], samples[i])
    ensures Describes(Folded(episodes), Concat(samples))
  {
    var n := |episodes| - 1;
    if n == 0 {
      assert Folded(episodes[..0]) == NOTHING && Concat(samples[..0]) == [];
      assert [] + samples[0] == samples[0];
    } else {
      FoldedDescribes(episodes[..n], samples[..n]);
      MergedDescribes(Folded(episodes[..n]), episodes[n], Concat(samples[..n]), samples[n]);
    }
  }

  // Merged quantiles -------------------------------------------------------------------------------------

  function QuantilesOf(s: Stats): (r: seq<real>)
    ensures |r| == 5
  {
    [s.q01, s.q10, s.q50, s.q90, s.q99]
  }

  /** Quantile k of each episode. */
  function Each(episodes: seq<Stats>, k: nat): seq<real>
    requires k < 5
  {
    seq(|episodes|, i requires 0 <= i < |episodes| => QuantilesOf(episodes[i])[k])
  }

  /** The lower three quantiles are the least of the episodes', the upper two the greatest. */
  ghost predicate QuantileMerges(s: Stats, episodes: seq<Stats>, k: nat)
    requires k < 5
  {
    if k < 3 then IsLeast(Each(episodes, k), QuantilesOf(s)[k]) else IsGreatest(Each(episodes, k), QuantilesOf(s)[k])
  }

  lemma OneMoreQuantile(s: Stats, episodes: seq<Stats>, e: Stats, k: nat)
    requires k < 5 && s.count > 0 && QuantileMerges(s, episodes, k)
    ensures QuantileMerges(Merged(s, e), episodes + [e], k)
  {
    var before, after := Each(episodes, k), Each(episodes + [e], k);
    assert after == before + [QuantilesOf(e)[k]];
    forall x | x in before ensures x in after {
    }
    assert after[|episodes|] == QuantilesOf(e)[k];
  }

  lemma OneQuantile(s: Stats, k: nat)
    requires k < 5
    ensures QuantileMerges(s, [s], k)
  {
    assert Each([s], k)[0] == QuantilesOf(s)[k];
  }

  lemma FoldedOneMore(episodes: seq<Stats>, e: Stats)
    ensures Folded(episodes + [e]) == Merged(Folded(episodes), e)
  {
    assert (episodes + [e])[..|episodes|] == episodes;
  }

  /** For any list of episodes. */
  lemma {:induction false} FoldedQuantiles(episodes: seq<Stats>, k: nat)
    requires k < 5 && episodes != [] && forall i :: 0 <= i < |episodes| ==> episodes[i].count > 0
    ensures Folded(episodes).count > 0 && QuantileMerges(Folded(episodes), episodes, k)
  {
    var front, last := episodes[..|episodes| - 1], episodes[|episodes| - 1];
    assert episodes == front + [last];
    FoldedOneMore(front, last);
    if front == [] {
      assert episodes == [last];
      OneQuantile(last, k);
    } else {
      FoldedQuantiles(front, k);
      OneMoreQuantile(Folded(front), front, last, k);
    }
  }
}
