/** Splitting positions 0..n into consecutive parts.

    Decode clusters (lerobot_video_frames.cpp) and video shards (lerobot_copy.cpp) are both built
    by extending the last part while a limit allows it. A split is given by its cuts, from 0 to n;
    `fits(i, j)` says that positions i..j may share one part. */
module Split {

  type Fits = (int, int) -> bool

  /** Every non-empty piece of an admissible part is itself admissible. */
  ghost predicate Hereditary(fits: Fits, n: nat) {
    forall i, j, a, b {:trigger fits(i, j), fits(a, b)} ::
      0 <= i <= a < b <= j <= n && fits(i, j) ==> fits(a, b)
  }

  predicate Rises(cuts: seq<nat>, k: nat)
    requires k + 1 < |cuts|
  {
    cuts[k] < cuts[k + 1]
  }

  /** The cuts delimit non-empty parts that tile 0..n. */
  predicate Tiles(cuts: seq<nat>, n: nat) {
    && |cuts| > 0 && cuts[0] == 0 && cuts[|cuts| - 1] == n
    && forall k: nat :: k + 1 < |cuts| ==> Rises(cuts, k)
  }

  ghost predicate PartFits(fits: Fits, cuts: seq<nat>, k: nat)
    requires k + 1 < |cuts|
  {
    fits(cuts[k], cuts[k + 1])
  }

  ghost predicate PartIsFull(fits: Fits, cuts: seq<nat>, k: nat)
    requires k + 1 < |cuts|
  {
    !fits(cuts[k], cuts[k + 1] + 1)
  }

  ghost predicate Admissible(fits: Fits, cuts: seq<nat>, n: nat) {
    Tiles(cuts, n) && forall k: nat :: k + 1 < |cuts| ==> PartFits(fits, cuts, k)
  }

  /** No part but the last could have taken one more position. */
  ghost predicate Greedy(fits: Fits, cuts: seq<nat>, n: nat) {
    Admissible(fits, cuts, n) && forall k: nat :: k + 2 < |cuts| ==> PartIsFull(fits, cuts, k)
  }

  lemma {:induction false} CutsIncrease(cuts: seq<nat>, n: nat, i: nat, j: nat)
    requires Tiles(cuts, n) && i < j < |cuts|
    ensures cuts[i] < cuts[j]
  {
    assert Rises(cuts, j - 1);
    if i < j - 1 {
      CutsIncrease(cuts, n, i, j - 1);
    }
  }

  lemma CutsAreBounded(cuts: seq<nat>, n: nat, i: nat)
    requires Tiles(cuts, n) && i < |cuts|
    ensures cuts[i] <= n
    ensures cuts[i] == n ==> i == |cuts| - 1
  {
    if i < |cuts| - 1 {
      CutsIncrease(cuts, n, i, |cuts| - 1);
    }
  }

  /** Cut by cut, a greedy split reaches at least as far as any other admissible split. */
  lemma {:induction false} GreedyStaysAhead(fits: Fits, greedy: seq<nat>, other: seq<nat>, n: nat, k: nat)
    requires Hereditary(fits, n)
    requires Greedy(fits, greedy, n) && Admissible(fits, other, n)
    requires k < |greedy| && k < |other|
    ensures other[k] <= greedy[k]
  {
    if k > 0 {
      GreedyStaysAhead(fits, greedy, other, n, k - 1);
      CutsAreBounded(greedy, n, k);
      CutsAreBounded(other, n, k);
      assert Rises(greedy, k - 1);
      assert PartFits(fits, other, k - 1);
      assert k + 1 < |greedy| ==> PartIsFull(fits, greedy, k - 1);
    }
  }

  /** A greedy split uses the fewest parts of all admissible splits. */
  lemma GreedyIsMinimal(fits: Fits, greedy: seq<nat>, other: seq<nat>, n: nat)
    requires Hereditary(fits, n)
    requires Greedy(fits, greedy, n) && Admissible(fits, other, n)
    ensures |greedy| <= |other|
  {
    if |other| < |greedy| {
      GreedyStaysAhead(fits, greedy, other, n, |other| - 1);
      CutsAreBounded(greedy, n, |other| - 1);
    }
  }

  /** Opening a new part keeps a split greedy when the last part could not grow. */
  lemma GreedyAppends(fits: Fits, cuts: seq<nat>, n: nat)
    requires Greedy(fits, cuts, n) && fits(n, n + 1)
    requires |cuts| > 1 ==> !fits(cuts[|cuts| - 2], n + 1)
    ensures Greedy(fits, cuts + [n + 1], n + 1)
  {
    var longer := cuts + [n + 1];
    forall k: nat | k + 1 < |longer|
      ensures Rises(longer, k) && PartFits(fits, longer, k) && (k + 2 < |longer| ==> PartIsFull(fits, longer, k))
    {
      assert k + 1 < |cuts| ==> Rises(cuts, k) && PartFits(fits, cuts, k);
      assert k + 2 < |cuts| ==> PartIsFull(fits, cuts, k);
    }
  }

  /** Growing the last part keeps a split greedy. */
  lemma GreedyExtends(fits: Fits, cuts: seq<nat>, n: nat)
    requires Greedy(fits, cuts, n) && |cuts| > 1 && fits(cuts[|cuts| - 2], n + 1)
    ensures Greedy(fits, cuts[|cuts| - 1 := n + 1], n + 1)
  {
    var longer := cuts[|cuts| - 1 := n + 1];
    forall k: nat | k + 1 < |longer|
      ensures Rises(longer, k) && PartFits(fits, longer, k) && (k + 2 < |longer| ==> PartIsFull(fits, longer, k))
    {
      assert Rises(cuts, k) && PartFits(fits, cuts, k);
      assert k + 2 < |cuts| ==> PartIsFull(fits, cuts, k);
    }
  }

  /** Place positions 0..n one by one: extend the last part while it fits, else open a new one. */
  function GreedyCuts(fits: Fits, n: nat): (cuts: seq<nat>)
    ensures |cuts| > 0 && (n > 0 ==> |cuts| > 1)
  {
    if n == 0 then [0]
    else if n == 1 then [0, 1]
    else
      var before := GreedyCuts(fits, n - 1);
      if fits(before[|before| - 2], n) then before[|before| - 1 := n] else before + [n]
  }

  ghost predicate SingleFits(fits: Fits, i: nat) {
    fits(i, i + 1)
  }

  ghost predicate SinglesFit(fits: Fits, n: nat) {
    forall i: nat :: i < n ==> SingleFits(fits, i)
  }

  lemma {:induction false} GreedyCutsAreGreedy(fits: Fits, n: nat)
    requires SinglesFit(fits, n)
    ensures Greedy(fits, GreedyCuts(fits, n), n)
  {
    if n == 1 {
      assert SingleFits(fits, 0);
    } else if n > 1 {
      GreedyCutsAreGreedy(fits, n - 1);
      assert SingleFits(fits, n - 1);
      var before := GreedyCuts(fits, n - 1);
      if fits(before[|before| - 2], n) {
        GreedyExtends(fits, before, n - 1);
      } else {
        GreedyAppends(fits, before, n - 1);
      }
    }
  }

  /** Position i belongs to the k-th part of the cuts. */
  ghost predicate InPart(cuts: seq<nat>, k: nat, i: nat) {
    k + 1 < |cuts| && cuts[k] <= i < cuts[k + 1]
  }

  // The parts as lists of positions ----------------------------------------------------------------

  predicate IsRun(part: seq<nat>, lo: nat, hi: nat) {
    hi == lo + |part| && forall i :: 0 <= i < |part| ==> part[i] == lo + i
  }

  predicate IsPart(parts: seq<seq<nat>>, cuts: seq<nat>, k: nat)
    requires k < |parts| && |cuts| == |parts| + 1
  {
    IsRun(parts[k], cuts[k], cuts[k + 1])
  }

  /** `parts` lists, part by part, the positions between consecutive cuts. */
  predicate ArePartsOf(parts: seq<seq<nat>>, cuts: seq<nat>) {
    |cuts| == |parts| + 1 && forall k: nat :: k < |parts| ==> IsPart(parts, cuts, k)
  }

  function Run(lo: nat, hi: nat): (r: seq<nat>)
    ensures lo <= hi ==> IsRun(r, lo, hi)
  {
    if lo >= hi then [] else Run(lo, hi - 1) + [hi - 1]
  }

  function Parts(cuts: seq<nat>): (parts: seq<seq<nat>>)
    requires |cuts| > 0
    ensures |parts| == |cuts| - 1
    ensures forall k :: 0 <= k < |parts| ==> parts[k] == Run(cuts[k], cuts[k + 1])
  {
    if |cuts| == 1 then [] else Parts(cuts[..|cuts| - 1]) + [Run(cuts[|cuts| - 2], cuts[|cuts| - 1])]
  }

  lemma PartsArePartsOf(cuts: seq<nat>, n: nat)
    requires Tiles(cuts, n)
    ensures ArePartsOf(Parts(cuts), cuts)
  {
    forall k: nat | k < |cuts| - 1
      ensures IsPart(Parts(cuts), cuts, k)
    {
      assert Rises(cuts, k);
    }
  }

  lemma RunsAreUnique(a: seq<nat>, b: seq<nat>, lo: nat, hi: nat)
    requires IsRun(a, lo, hi) && IsRun(b, lo, hi)
    ensures a == b
  {
  }

  lemma PartsAreUnique(a: seq<seq<nat>>, b: seq<seq<nat>>, cuts: seq<nat>)
    requires ArePartsOf(a, cuts) && ArePartsOf(b, cuts)
    ensures a == b
  {
    forall k: nat | k < |a|
      ensures a[k] == b[k]
    {
      assert IsPart(a, cuts, k) && IsPart(b, cuts, k);
      RunsAreUnique(a[k], b[k], cuts[k], cuts[k + 1]);
    }
  }

  lemma PartsAppend(parts: seq<seq<nat>>, cuts: seq<nat>, n: nat)
    requires ArePartsOf(parts, cuts) && cuts[|cuts| - 1] == n
    ensures ArePartsOf(parts + [[n]], cuts + [n + 1])
  {
    var longer, next := parts + [[n]], cuts + [n + 1];
    forall k: nat | k < |longer|
      ensures IsPart(longer, next, k)
    {
      assert k < |parts| ==> IsPart(parts, cuts, k);
    }
  }

  lemma PartsExtend(parts: seq<seq<nat>>, cuts: seq<nat>, n: nat)
    requires ArePartsOf(parts, cuts) && parts != [] && cuts[|cuts| - 1] == n
    ensures ArePartsOf(parts[|parts| - 1 := parts[|parts| - 1] + [n]], cuts[|cuts| - 1 := n + 1])
  {
    var longer, next := parts[|parts| - 1 := parts[|parts| - 1] + [n]], cuts[|cuts| - 1 := n + 1];
    forall k: nat | k < |longer|
      ensures IsPart(longer, next, k)
    {
      assert IsPart(parts, cuts, k);
    }
  }

  /** Position n joins the last part or becomes a part of its own. */
  lemma PartsStep(fits: Fits, parts: seq<seq<nat>>, n: nat)
    requires ArePartsOf(parts, GreedyCuts(fits, n)) && GreedyCuts(fits, n)[|parts|] == n
    ensures var cuts, next := GreedyCuts(fits, n), GreedyCuts(fits, n + 1);
            if n == 0 || !fits(cuts[|cuts| - 2], n + 1) then ArePartsOf(parts + [[n]], next)
            else ArePartsOf(parts[|parts| - 1 := parts[|parts| - 1] + [n]], next)
  {
    var cuts := GreedyCuts(fits, n);
    PartsAppend(parts, cuts, n);
    if n > 0 {
      PartsExtend(parts, cuts, n);
    } else {
      assert cuts + [1] == [0, 1];
    }
  }
}
