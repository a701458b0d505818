/** Decode targets, their order inside a buffer, and the clusters a buffer is decoded in.

    Timestamps are exact reals. `payload` stands for the target columns that scheduling and
    decoding never read. */
module VideoBuffers {
  import opened Split

  const MAX_CLUSTER_FRAME_SPAN: nat := 20000
  const MAX_IDX: nat := 0xFFFF_FFFF_FFFF_FFFF

  type Fps = fps: nat | fps > 0 witness 1

  datatype Target = Target(
    videoTimestamp: real,
    episodeIndex: int,
    frameIndex: int,
    routeIndex: nat,
    requestOrdinal: nat,
    deltaOrdinal: nat,
    payload: int)

  datatype DecodeBuffer = DecodeBuffer(shardIndex: nat, targets: seq<Target>, clusters: seq<seq<nat>>)

  /** The comparison a buffer is sorted with: timestamp, episode, frame, route, then request order. */
  predicate Before(left: Target, right: Target) {
    if left.videoTimestamp != right.videoTimestamp then left.videoTimestamp < right.videoTimestamp
    else if left.episodeIndex != right.episodeIndex then left.episodeIndex < right.episodeIndex
    else if left.frameIndex != right.frameIndex then left.frameIndex < right.frameIndex
    else if left.routeIndex != right.routeIndex then left.routeIndex < right.routeIndex
    else if left.requestOrdinal != right.requestOrdinal then left.requestOrdinal < right.requestOrdinal
    else left.deltaOrdinal < right.deltaOrdinal
  }

  predicate Sorted(targets: seq<Target>) {
    forall i, j :: 0 <= i < j < |targets| ==> !Before(targets[j], targets[i])
  }

  /** The order of a buffer, column by column: the first column in which two targets differ decides. */
  lemma SortedInColumns(targets: seq<Target>, i: nat, j: nat, a: Target, b: Target)
    requires Sorted(targets) && i < j < |targets| && a == targets[i] && b == targets[j]
    ensures a.videoTimestamp <= b.videoTimestamp
    ensures a.videoTimestamp == b.videoTimestamp ==> a.episodeIndex <= b.episodeIndex
    ensures a.videoTimestamp == b.videoTimestamp && a.episodeIndex == b.episodeIndex ==> a.frameIndex <= b.frameIndex
    ensures a.videoTimestamp == b.videoTimestamp && a.episodeIndex == b.episodeIndex && a.frameIndex == b.frameIndex ==>
              && a.routeIndex <= b.routeIndex
              && (a.routeIndex == b.routeIndex ==>
                    && a.requestOrdinal <= b.requestOrdinal
                    && (a.requestOrdinal == b.requestOrdinal ==> a.deltaOrdinal <= b.deltaOrdinal))
  {
    assert !Before(targets[j], targets[i]);
  }

  function Insert(target: Target, sorted: seq<Target>): (r: seq<Target>)
    requires Sorted(sorted)
    ensures multiset(r) == multiset(sorted) + multiset{target}
    ensures forall t :: t in r ==> t == target || t in sorted
    ensures Sorted(r)
  {
    if sorted == [] then [target]
    else if Before(target, sorted[0]) then [target] + sorted
    else
      assert sorted == [sorted[0]] + sorted[1..];
      var rest := Insert(target, sorted[1..]);
      assert forall t :: t in rest ==> !Before(t, sorted[0]);
      [sorted[0]] + rest
  }

  function SortTargets(targets: seq<Target>): (r: seq<Target>)
    ensures Sorted(r) && multiset(r) == multiset(targets)
    ensures |r| == |targets|
  {
    if targets == [] then []
    else
      var last := |targets| - 1;
      assert targets == targets[..last] + [targets[last]];
      var r := Insert(targets[last], SortTargets(targets[..last]));
      assert |multiset(r)| == |multiset(targets)|;
      r
  }

  function Ceiling(x: real): int {
    -((-x).Floor)
  }

  /** Frames a decoder may have to read from the first to the last timestamp, saturating at 64 bits. */
  function EstimateFrameSpan(first: real, last: real, fps: Fps): (span: nat)
    ensures 1 <= span
  {
    if last <= first then 1
    else
      assert (last - first) * fps as real >= 0.0;
      var span := Ceiling((last - first) * fps as real) + 1;
      if span >= MAX_IDX then MAX_IDX else span
  }

  lemma CeilingIsMonotone(x: real, y: real)
    requires x <= y
    ensures Ceiling(x) <= Ceiling(y)
  {
  }

  lemma ScaleIsMonotone(a: real, b: real, factor: real)
    requires a <= b && factor > 0.0
    ensures a * factor <= b * factor
  {
  }

  lemma SpanIsMonotone(first: real, first': real, last: real, last': real, fps: Fps)
    requires first <= first' && last' <= last
    ensures EstimateFrameSpan(first', last', fps) <= EstimateFrameSpan(first, last, fps)
  {
    if first' < last' {
      var x, y := (last' - first') * fps as real, (last - first) * fps as real;
      ScaleIsMonotone(last' - first', last - first, fps as real);
      CeilingIsMonotone(x, y);
    }
  }

  /** c is the least integer at or above x. */
  ghost predicate IsCeiling(c: int, x: real) {
    c as real - 1.0 < x <= c as real
  }

  /** c frames follow the one at `first` up to `last`, rounded up. */
  ghost predicate FramesBetween(c: nat, first: real, last: real, fps: Fps) {
    if last <= first then c == 0 else IsCeiling(c, (last - first) * fps as real)
  }

  lemma FramesAreUnique(c: nat, d: nat, first: real, last: real, fps: Fps)
    requires FramesBetween(c, first, last, fps) && FramesBetween(d, first, last, fps)
    ensures c == d
  {
  }

  lemma SpanInNumbers(first: real, last: real, fps: Fps, c: nat)
    requires FramesBetween(c, first, last, fps)
    ensures EstimateFrameSpan(first, last, fps) == if c < 0xFFFF_FFFF_FFFF_FFFF then c + 1 else 0xFFFF_FFFF_FFFF_FFFF
  {
    if first < last {
      CeilingIs((last - first) * fps as real, c);
    }
  }

  lemma CeilingIs(x: real, c: int)
    requires IsCeiling(c, x)
    ensures Ceiling(x) == c
  {
  }

  /** The span limit of 20000 frames, in seconds times frames per second. */
  lemma SpanLimitInNumbers(first: real, last: real, fps: Fps)
    requires first <= last
    ensures EstimateFrameSpan(first, last, fps) <= MAX_CLUSTER_FRAME_SPAN <==> (last - first) * fps as real <= 19999.0
  {
    var x := (last - first) * fps as real;
    CeilingIs(x, Ceiling(x));
  }

  /** May the sorted targets i..j form one cluster: no gap above the limit, frame span bounded. */
  predicate ClusterFits(targets: seq<Target>, gap: real, fps: Fps, i: int, j: int) {
    && 0 <= i < j <= |targets|
    && (forall k :: i < k < j ==> targets[k].videoTimestamp - targets[k - 1].videoTimestamp <= gap)
    && (j - i > 1 ==>
          EstimateFrameSpan(targets[i].videoTimestamp, targets[j - 1].videoTimestamp, fps) <= MAX_CLUSTER_FRAME_SPAN)
  }

  /** A cluster has no gap above the limit and covers less than 20000 frames. */
  lemma ClusterInNumbers(targets: seq<Target>, gap: real, fps: Fps, i: nat, j: nat)
    requires Sorted(targets) && i < j <= |targets|
    ensures ClusterFits(targets, gap, fps, i, j) <==>
            && (forall k :: i < k < j ==> targets[k].videoTimestamp - targets[k - 1].videoTimestamp <= gap)
            && (targets[j - 1].videoTimestamp - targets[i].videoTimestamp) * fps as real <= 19999.0
  {
    if j - i > 1 {
      assert !Before(targets[j - 1], targets[i]);
      SpanLimitInNumbers(targets[i].videoTimestamp, targets[j - 1].videoTimestamp, fps);
    } else {
      assert 0.0 * fps as real == 0.0;
    }
  }

  function Fitting(targets: seq<Target>, gap: real, fps: Fps): Fits {
    (i, j) => ClusterFits(targets, gap, fps, i, j)
  }

  lemma ClusterFitsIsHereditary(targets: seq<Target>, gap: real, fps: Fps)
    requires Sorted(targets)
    ensures Hereditary(Fitting(targets, gap, fps), |targets|)
  {
    forall i, j, a, b | 0 <= i <= a < b <= j <= |targets| && ClusterFits(targets, gap, fps, i, j)
      ensures ClusterFits(targets, gap, fps, a, b)
    {
      assert i < a ==> !Before(targets[a], targets[i]);
      assert b < j ==> !Before(targets[j - 1], targets[b - 1]);
      SpanIsMonotone(targets[i].videoTimestamp, targets[a].videoTimestamp,
                     targets[j - 1].videoTimestamp, targets[b - 1].videoTimestamp, fps);
    }
  }

  /** Does target m open a new cluster after the one that starts at `first`? */
  predicate OpensCluster(targets: seq<Target>, gap: real, fps: Fps, first: nat, m: nat)
    requires first < m < |targets|
  {
    || targets[m].videoTimestamp - targets[m - 1].videoTimestamp > gap
    || EstimateFrameSpan(targets[first].videoTimestamp, targets[m].videoTimestamp, fps) > MAX_CLUSTER_FRAME_SPAN
  }

  /** Where the clusters are cut after the first m sorted targets have been placed. */
  function ClusterCuts(targets: seq<Target>, gap: real, fps: Fps, m: nat): (cuts: seq<nat>)
    ensures |cuts| > 0 && (m > 0 ==> |cuts| > 1)
  {
    GreedyCuts(Fitting(targets, gap, fps), m)
  }

  /** A cluster may take one more target exactly when that target does not open a new one. */
  lemma ClusterGrows(targets: seq<Target>, gap: real, fps: Fps, first: nat, m: nat)
    requires first < m < |targets| && ClusterFits(targets, gap, fps, first, m)
    ensures ClusterFits(targets, gap, fps, first, m + 1) <==> !OpensCluster(targets, gap, fps, first, m)
  {
  }

  lemma ClusterCutsAreGreedy(targets: seq<Target>, gap: real, fps: Fps, m: nat)
    requires m <= |targets|
    ensures Greedy(Fitting(targets, gap, fps), ClusterCuts(targets, gap, fps, m), m)
  {
    SinglesFitClusters(targets, gap, fps, m);
    GreedyCutsAreGreedy(Fitting(targets, gap, fps), m);
  }

  lemma SinglesFitClusters(targets: seq<Target>, gap: real, fps: Fps, m: nat)
    requires m <= |targets|
    ensures SinglesFit(Fitting(targets, gap, fps), m)
  {
  }

  lemma LastClusterFits(targets: seq<Target>, gap: real, fps: Fps, m: nat)
    requires 0 < m <= |targets|
    ensures var cuts := ClusterCuts(targets, gap, fps, m);
            ClusterFits(targets, gap, fps, cuts[|cuts| - 2], m) && cuts[|cuts| - 2] < m == cuts[|cuts| - 1]
  {
    var fits, cuts := Fitting(targets, gap, fps), ClusterCuts(targets, gap, fps, m);
    ClusterCutsAreGreedy(targets, gap, fps, m);
    assert PartFits(fits, cuts, |cuts| - 2);
    assert Rises(cuts, |cuts| - 2);
  }

  /** What finalizing a buffer leaves behind: sorted targets and their clusters. */
  function Finalized(buffer: DecodeBuffer, gap: real, fps: Fps): (r: DecodeBuffer)
    ensures r.shardIndex == buffer.shardIndex && Sorted(r.targets)
    ensures multiset(r.targets) == multiset(buffer.targets) && |r.targets| == |buffer.targets|
  {
    var sorted := SortTargets(buffer.targets);
    DecodeBuffer(buffer.shardIndex, sorted, Parts(ClusterCuts(sorted, gap, fps, |sorted|)))
  }

  /** Clusters are consecutive runs of the sorted targets within the gap and span limits, and no
      other consecutive split within these limits has fewer parts. */
  lemma ClustersAreMinimal(buffer: DecodeBuffer, gap: real, fps: Fps, other: seq<nat>)
    requires Admissible(Fitting(Finalized(buffer, gap, fps).targets, gap, fps), other, |buffer.targets|)
    ensures var done := Finalized(buffer, gap, fps);
            exists cuts :: Admissible(Fitting(done.targets, gap, fps), cuts, |done.targets|)
                        && ArePartsOf(done.clusters, cuts) && |done.clusters| < |other|
  {
    var targets := Finalized(buffer, gap, fps).targets;
    var cuts := ClusterCuts(targets, gap, fps, |targets|);
    ClusterFitsIsHereditary(targets, gap, fps);
    ClusterCutsAreGreedy(targets, gap, fps, |targets|);
    GreedyIsMinimal(Fitting(targets, gap, fps), cuts, other, |targets|);
    PartsArePartsOf(cuts, |targets|);
    assert Admissible(Fitting(targets, gap, fps), cuts, |targets|);
  }

  /** The test made for every target: does it leave the last cluster? */
  method OpensNewCluster(targets: seq<Target>, clusters: seq<seq<nat>>, gap: real, fps: Fps, target: nat)
    returns (newCluster: bool)
    requires target < |targets| && ArePartsOf(clusters, ClusterCuts(targets, gap, fps, target))
    ensures var cuts := ClusterCuts(targets, gap, fps, target);
            newCluster == (target == 0 || !ClusterFits(targets, gap, fps, cuts[|cuts| - 2], target + 1))
  {
    newCluster := clusters == [];
    if !newCluster {
      LastClusterFits(targets, gap, fps, target);
      var cluster := clusters[|clusters| - 1];
      assert IsPart(clusters, ClusterCuts(targets, gap, fps, target), |clusters| - 1);
      var previous, first := cluster[|cluster| - 1], cluster[0];
      var adjacentGap := targets[target].videoTimestamp - targets[previous].videoTimestamp;
      var span := EstimateFrameSpan(targets[first].videoTimestamp, targets[target].videoTimestamp, fps);
      newCluster := adjacentGap > gap || span > MAX_CLUSTER_FRAME_SPAN;
      ClusterGrows(targets, gap, fps, first, target);
    }
  }

  lemma ClustersStep(targets: seq<Target>, gap: real, fps: Fps, target: nat, clusters: seq<seq<nat>>, newCluster: bool)
    requires target < |targets| && ArePartsOf(clusters, ClusterCuts(targets, gap, fps, target))
    requires var cuts := ClusterCuts(targets, gap, fps, target);
             newCluster == (target == 0 || !ClusterFits(targets, gap, fps, cuts[|cuts| - 2], target + 1))
    ensures var next := ClusterCuts(targets, gap, fps, target + 1);
            if newCluster then ArePartsOf(clusters + [[target]], next)
            else
              && clusters != []
              && ArePartsOf(clusters[|clusters| - 1 := clusters[|clusters| - 1] + [target]], next)
  {
    ClusterCutsAreGreedy(targets, gap, fps, target);
    PartsStep(Fitting(targets, gap, fps), clusters, target);
  }

  /** Place the sorted targets one by one, opening a cluster where a limit is exceeded. */
  method BuildClusters(targets: seq<Target>, gap: real, fps: Fps) returns (clusters: seq<seq<nat>>)
    ensures ArePartsOf(clusters, ClusterCuts(targets, gap, fps, |targets|))
  {
    clusters := [];
    for target := 0 to |targets|
      invariant ArePartsOf(clusters, ClusterCuts(targets, gap, fps, target))
    {
      var newCluster := OpensNewCluster(targets, clusters, gap, fps, target);
      ClustersStep(targets, gap, fps, target, clusters, newCluster);
      if newCluster {
        clusters := clusters + [[target]];
      } else {
        var last := |clusters| - 1;
        clusters := clusters[last := clusters[last] + [target]];
      }
    }
  }

  /** Sort the targets and cluster them. */
  method FinalizeDecodeBuffer(buffer: DecodeBuffer, gap: real, fps: Fps) returns (r: DecodeBuffer)
    ensures r == Finalized(buffer, gap, fps)
  {
    var targets := SortTargets(buffer.targets);
    var clusters := BuildClusters(targets, gap, fps);
    r := DecodeBuffer(buffer.shardIndex, targets, clusters);
    ghost var cuts := ClusterCuts(targets, gap, fps, |targets|);
    ClusterCutsAreGreedy(targets, gap, fps, |targets|);
    PartsArePartsOf(cuts, |targets|);
    PartsAreUnique(clusters, Parts(cuts), cuts);
  }
}
