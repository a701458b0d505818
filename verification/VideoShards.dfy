/** Video shards of one feature: episode clips are collected until the next one would reach the size
    limit, then joined into one file; each episode's route says where its frames are. */
module VideoShards {
  import opened Split
  import opened FileSeries

  const MAX_BYTES: nat := 0xFFFF_FFFF_FFFF_FFFF

  /** The encoded video of one episode. */
  datatype Clip = Clip(bytes: nat, duration: real)

  datatype Route = Route(file: FileId, from: real, to: real)

  function Bytes(clips: seq<Clip>, lo: nat, hi: nat): nat
    requires lo <= hi <= |clips|
  {
    if lo == hi then 0 else Bytes(clips, lo, hi - 1) + clips[hi - 1].bytes
  }

  function Duration(clips: seq<Clip>, lo: nat, hi: nat): real
    requires lo <= hi <= |clips|
  {
    if lo == hi then 0.0 else Duration(clips, lo, hi - 1) + clips[hi - 1].duration
  }

  /** Clips lo..hi may share a shard: a single clip always, several below the size limit. */
  predicate ShardFits(clips: seq<Clip>, limit: real, lo: int, hi: int) {
    0 <= lo < hi <= |clips| && (hi == lo + 1 || Bytes(clips, lo, hi) as real < limit)
  }

  function Fitting(clips: seq<Clip>, limit: real): Fits {
    (lo: int, hi: int) => ShardFits(clips, limit, lo, hi)
  }

  function ShardCuts(clips: seq<Clip>, limit: real, n: nat): (cuts: seq<nat>)
    ensures |cuts| > 0 && (n > 0 ==> |cuts| > 1)
  {
    GreedyCuts(Fitting(clips, limit), n)
  }

  lemma {:induction false} BytesOfPart(clips: seq<Clip>, i: nat, a: nat, b: nat, j: nat)
    requires i <= a <= b <= j <= |clips|
    ensures Bytes(clips, a, b) <= Bytes(clips, i, j)
    decreases j
  {
    if b < j {
      BytesOfPart(clips, i, a, b, j - 1);
    } else if a < b {
      BytesOfPart(clips, i, a, b - 1, j - 1);
    }
  }

  lemma ShardFitsIsHereditary(clips: seq<Clip>, limit: real)
    ensures Hereditary(Fitting(clips, limit), |clips|)
  {
    forall i, j, a, b | 0 <= i <= a < b <= j <= |clips| && ShardFits(clips, limit, i, j)
      ensures ShardFits(clips, limit, a, b)
    {
      BytesOfPart(clips, i, a, b, j);
    }
  }

  lemma ShardCutsAreGreedy(clips: seq<Clip>, limit: real, n: nat)
    requires n <= |clips|
    ensures Greedy(Fitting(clips, limit), ShardCuts(clips, limit, n), n)
  {
    assert SinglesFit(Fitting(clips, limit), n);
    GreedyCutsAreGreedy(Fitting(clips, limit), n);
  }

  /** The cuts are consecutive shards within the limit, and no way to cut the episodes into such needs fewer. */
  ghost predicate FewestParts(clips: seq<Clip>, limit: real, cuts: seq<nat>) {
    && Admissible(Fitting(clips, limit), cuts, |clips|)
    && forall other :: Admissible(Fitting(clips, limit), other, |clips|) ==> |cuts| <= |other|
  }

  lemma ShardsAreMinimal(clips: seq<Clip>, limit: real, cuts: seq<nat>)
    requires cuts == ShardCuts(clips, limit, |clips|)
    ensures FewestParts(clips, limit, cuts)
  {
    ShardFitsIsHereditary(clips, limit);
    ShardCutsAreGreedy(clips, limit, |clips|);
    forall other | Admissible(Fitting(clips, limit), other, |clips|) ensures |cuts| <= |other| {
      GreedyIsMinimal(Fitting(clips, limit), cuts, other, |clips|);
    }
  }

  /** A shard of several clips has less than `limit` bytes, and with the next clip it would not. */
  lemma ShardsAreFull(clips: seq<Clip>, limit: real, cuts: seq<nat>, k: nat)
    requires cuts == ShardCuts(clips, limit, |clips|) && k + 1 < |cuts|
    ensures cuts[k] < cuts[k + 1] <= |clips|
    ensures cuts[k + 1] > cuts[k] + 1 ==> (Bytes(clips, cuts[k], cuts[k + 1]) as real) < limit
    ensures cuts[k + 1] < |clips| ==> (Bytes(clips, cuts[k], cuts[k + 1]) + clips[cuts[k + 1]].bytes) as real >= limit
  {
    ShardCutsAreGreedy(clips, limit, |clips|);
    assert Rises(cuts, k);
    CutsAreBounded(cuts, |clips|, k + 1);
    assert PartFits(Fitting(clips, limit), cuts, k);
    if cuts[k + 1] < |clips| {
      assert k + 2 < |cuts|;
      assert PartIsFull(Fitting(clips, limit), cuts, k);
    }
  }

  /** The first clip of the shard that clip n joins or opens. */
  function ShardStart(clips: seq<Clip>, limit: real, n: nat): (start: int) {
    var cuts := ShardCuts(clips, limit, n);
    if Joins(clips, limit, cuts, n) then cuts[|cuts| - 2] else n
  }

  lemma ShardStartIsBefore(clips: seq<Clip>, limit: real, n: nat)
    requires n <= |clips|
    ensures 0 <= ShardStart(clips, limit, n) <= n
  {
    var cuts := ShardCuts(clips, limit, n);
    ShardCutsAreGreedy(clips, limit, n);
    if |cuts| > 1 {
      assert Rises(cuts, |cuts| - 2);
    }
  }

  /** With clip n its shard gets too large to count. */
  predicate TooLarge(clips: seq<Clip>, limit: real, n: nat)
    requires n < |clips|
  {
    ShardStartIsBefore(clips, limit, n);
    Bytes(clips, ShardStart(clips, limit, n), n) + clips[n].bytes > 0xFFFF_FFFF_FFFF_FFFF
  }

  // Routes -------------------------------------------------------------------------------------------

  /** Shard k holds the clips of part k, one after the other. */
  function RouteOf(clips: seq<Clip>, first: nat, k: nat, i: nat, chunkSize: nat): Route
    requires first <= i < |clips|
  {
    Route(Nth(k, chunkSize), Duration(clips, first, i), Duration(clips, first, i + 1))
  }

  /** Every one of the first n episodes has the route of its place in its shard. */
  ghost predicate RoutesFollow(clips: seq<Clip>, cuts: seq<nat>, routes: seq<Route>, chunkSize: nat, n: nat) {
    && |routes| == n <= |clips|
    && forall k: nat, i: nat :: InPart(cuts, k, i) && i < n ==> routes[i] == RouteOf(clips, cuts[k], k, i, chunkSize)
  }

  ghost predicate ShardHolds(files: Files<nat>, cuts: seq<nat>, chunkSize: nat, k: nat) {
    k + 1 < |cuts| ==> Nth(k, chunkSize) in files && IsRun(files[Nth(k, chunkSize)], cuts[k], cuts[k + 1])
  }

  /** The first n shards are files with their episodes' clips, and there are no others. */
  ghost predicate ShardsHold(files: Files<nat>, cuts: seq<nat>, chunkSize: nat, n: nat) {
    Opens(files, chunkSize, n) && forall k: nat :: k < n ==> ShardHolds(files, cuts, chunkSize, k)
  }

  /** The routes of a shard's episodes tile 0..its duration in episode order, and the shard is made of
      exactly these episodes' clips. */
  lemma RoutesTileTheirShard(clips: seq<Clip>, cuts: seq<nat>, routes: seq<Route>, files: Files<nat>, chunkSize: nat, k: nat)
    requires Tiles(cuts, |clips|) && RoutesFollow(clips, cuts, routes, chunkSize, |clips|)
    requires k + 1 < |cuts| && ShardsHold(files, cuts, chunkSize, |cuts| - 1)
    ensures cuts[k] < cuts[k + 1] <= |routes|
    ensures Nth(k, chunkSize) in files && IsRun(files[Nth(k, chunkSize)], cuts[k], cuts[k + 1])
    ensures routes[cuts[k]].from == 0.0 && routes[cuts[k + 1] - 1].to == Duration(clips, cuts[k], cuts[k + 1])
    ensures forall i :: cuts[k] <= i < cuts[k + 1] ==>
              && routes[i].file == Nth(k, chunkSize) && routes[i].to == routes[i].from + clips[i].duration
              && (i + 1 < cuts[k + 1] ==> routes[i + 1].from == routes[i].to)
  {
    assert Rises(cuts, k) && ShardHolds(files, cuts, chunkSize, k);
    CutsAreBounded(cuts, |clips|, k + 1);
    forall i: nat | cuts[k] <= i < cuts[k + 1]
      ensures routes[i] == RouteOf(clips, cuts[k], k, i, chunkSize)
    {
      assert InPart(cuts, k, i);
    }
  }

  // Registering one more clip --------------------------------------------------------------------------

  /** Cuts once episode n has joined the last shard or opened a new one. */
  function NextCuts(cuts: seq<nat>, n: nat, joins: bool): seq<nat>
    requires |cuts| > 0
  {
    if joins then cuts[|cuts| - 1 := n + 1] else cuts + [n + 1]
  }

  predicate Joins(clips: seq<Clip>, limit: real, cuts: seq<nat>, n: nat) {
    |cuts| > 1 && ShardFits(clips, limit, cuts[|cuts| - 2], n + 1)
  }

  lemma NextShardCuts(clips: seq<Clip>, limit: real, cuts: seq<nat>, n: nat)
    requires n < |clips| && cuts == ShardCuts(clips, limit, n)
    ensures NextCuts(cuts, n, Joins(clips, limit, cuts, n)) == ShardCuts(clips, limit, n + 1)
  {
    ShardCutsAreGreedy(clips, limit, n);
    if n == 0 {
      assert cuts + [1] == [0, 1];
    }
  }

  lemma RoutesOneMore(clips: seq<Clip>, cuts: seq<nat>, n: nat, joins: bool, routes: seq<Route>, chunkSize: nat)
    requires n < |clips| && Tiles(cuts, n) && (joins ==> |cuts| > 1) && RoutesFollow(clips, cuts, routes, chunkSize, n)
    ensures var next := NextCuts(cuts, n, joins);
            var k := |next| - 2;
            && next[k] <= n
            && RoutesFollow(clips, next, routes + [RouteOf(clips, next[k], k, n, chunkSize)], chunkSize, n + 1)
  {
    var next := NextCuts(cuts, n, joins);
    var last := |next| - 2;
    if joins {
      assert Rises(cuts, last);
    }
    var more := routes + [RouteOf(clips, next[last], last, n, chunkSize)];
    forall k: nat, i: nat | InPart(next, k, i) && i < n + 1
      ensures more[i] == RouteOf(clips, next[k], k, i, chunkSize)
    {
      if k < last {
        CutsAreBounded(cuts, n, k + 1);
        assert InPart(cuts, k, i);
      } else if i < n {
        assert InPart(cuts, k, i);
      }
    }
  }

  lemma EarlierShardsStay(files: Files<nat>, cuts: seq<nat>, n: nat, joins: bool, chunkSize: nat)
    requires Tiles(cuts, n) && |cuts| > 1
    requires ShardsHold(files, cuts, chunkSize, if joins then |cuts| - 2 else |cuts| - 1)
    ensures ShardsHold(files, NextCuts(cuts, n, joins), chunkSize, if joins then |cuts| - 2 else |cuts| - 1)
  {
    var m := if joins then |cuts| - 2 else |cuts| - 1;
    forall k: nat | k < m ensures ShardHolds(files, NextCuts(cuts, n, joins), chunkSize, k) {
      assert ShardHolds(files, cuts, chunkSize, k);
    }
  }

  lemma SameKeysOpen(files: Files<nat>, other: Files<nat>, chunkSize: nat, n: nat)
    requires Opens(files, chunkSize, n) && files.Keys == other.Keys
    ensures Opens(other, chunkSize, n)
  {
    assert forall id :: id in other <==> id in files;
  }

  lemma ShardWritten(files: Files<nat>, cuts: seq<nat>, chunkSize: nat, part: seq<nat>)
    requires |cuts| > 1 && ShardsHold(files, cuts, chunkSize, |cuts| - 2)
    requires IsRun(part, cuts[|cuts| - 2], cuts[|cuts| - 1])
    ensures Nth(|cuts| - 2, chunkSize) !in files
    ensures ShardsHold(files[Nth(|cuts| - 2, chunkSize) := part], cuts, chunkSize, |cuts| - 1)
  {
    var m := |cuts| - 2;
    var id := Nth(m, chunkSize);
    var written := files[id := part];
    OpenNext(files, chunkSize, m);
    SameKeysOpen(files[id := []], written, chunkSize, m + 1);
    forall k: nat | k < m + 1 ensures ShardHolds(written, cuts, chunkSize, k) {
      assert k < m ==> ShardHolds(files, cuts, chunkSize, k);
      if k < m {
        NthIncreases(k, m, chunkSize);
      }
    }
  }
}
