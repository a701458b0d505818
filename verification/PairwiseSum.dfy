/** The order in which NumPy adds: which sums COPY's statistics compute, as trees over the positions of the
    samples, and what that order means for the result and its rounding. */
module PairwiseSum {
  const BLOCK: nat := 128

  datatype Tree = Zero | Leaf(index: nat) | Node(left: Tree, right: Tree)

  /** The value of a tree, for any addition whatever: nothing is assumed of it. */
  function Eval<T>(t: Tree, zero: T, add: (T, T) -> T, leaf: nat -> T): T {
    match t
    case Zero => zero
    case Leaf(i) => leaf(i)
    case Node(l, r) => add(Eval(l, zero, add, leaf), Eval(r, zero, add, leaf))
  }

  /** t plus the n samples from `from` on, added one by one. */
  function Chain(t: Tree, from: nat, n: nat): Tree {
    if n == 0 then t else Node(Chain(t, from, n - 1), Leaf(from + n - 1))
  }

  /** Accumulator a after some rounds of eight samples. */
  function Accumulator(from: nat, a: nat, rounds: nat): Tree
    requires rounds > 0
  {
    if rounds == 1 then Leaf(from + a) else Node(Accumulator(from, a, rounds - 1), Leaf(from + 8 * (rounds - 1) + a))
  }

  /** The eight-way collapse. */
  function Collapse(from: nat, rounds: nat): Tree
    requires rounds > 0
  {
    Node(Node(Node(Accumulator(from, 0, rounds), Accumulator(from, 1, rounds)),
              Node(Accumulator(from, 2, rounds), Accumulator(from, 3, rounds))),
         Node(Node(Accumulator(from, 4, rounds), Accumulator(from, 5, rounds)),
              Node(Accumulator(from, 6, rounds), Accumulator(from, 7, rounds))))
  }

  function LeftCount(count: nat): nat {
    count / 2 - count / 2 % 8
  }

  lemma LeftCountIsProper(count: nat)
    requires count > BLOCK
    ensures 0 < LeftCount(count) < count && LeftCount(count) <= count / 2
    ensures count - LeftCount(count) <= (count + 1) / 2 + 7
  {
  }

  function Pairwise(from: nat, count: nat): Tree
    decreases count
  {
    if count < 8 then Chain(Zero, from, count)
    else if count <= BLOCK then Chain(Collapse(from, count / 8), from + 8 * (count / 8), count % 8)
    else
      LeftCountIsProper(count);
      Node(Pairwise(from, LeftCount(count)), Pairwise(from + LeftCount(count), count - LeftCount(count)))
  }

  /** More than 128 samples are split in two, near the middle and at a multiple of eight. */
  lemma PairwiseSplits(from: nat, count: nat) returns (m: nat)
    requires count > 128
    ensures m % 8 == 0 && m <= count / 2 < m + 8 && Pairwise(from, count) == Node(Pairwise(from, m), Pairwise(from + m, count - m))
  {
    m := LeftCount(count);
  }

  lemma PairwiseOfBlock(from: nat, count: nat, rounds: nat, at: nat, collapsed: Tree)
    requires 8 <= count <= 128 && rounds == count / 8 && at == from + 8 * rounds && collapsed == Collapse(from, rounds)
    ensures Pairwise(from, count) == Chain(collapsed, at, count % 8)
  {
  }

  // Every sample is added exactly once -----------------------------------------------------------------

  function Plus(a: real, b: real): real {
    a + b
  }

  function Sum(leaf: nat -> real, from: nat, n: nat): real {
    if n == 0 then 0.0 else Sum(leaf, from, n - 1) + leaf(from + n - 1)
  }

  function Exact(t: Tree, leaf: nat -> real): real {
    Eval(t, 0.0, Plus, leaf)
  }

  lemma ExactNode(l: Tree, r: Tree, leaf: nat -> real)
    ensures Exact(Node(l, r), leaf) == Exact(l, leaf) + Exact(r, leaf)
  {
  }

  lemma {:induction false} SumSplits(leaf: nat -> real, from: nat, m: nat, n: nat)
    ensures Sum(leaf, from, m + n) == Sum(leaf, from, m) + Sum(leaf, from + m, n)
  {
    if n > 0 {
      SumSplits(leaf, from, m, n - 1);
    }
  }

  lemma {:induction false} ChainIsExact(t: Tree, leaf: nat -> real, from: nat, n: nat)
    ensures Exact(Chain(t, from, n), leaf) == Exact(t, leaf) + Sum(leaf, from, n)
  {
    if n > 0 {
      ChainIsExact(t, leaf, from, n - 1);
      ExactNode(Chain(t, from, n - 1), Leaf(from + n - 1), leaf);
    }
  }

  function AccumulatorSum(leaf: nat -> real, from: nat, n: nat, rounds: nat): real
    requires rounds > 0
  {
    if n == 0 then 0.0 else AccumulatorSum(leaf, from, n - 1, rounds) + Exact(Accumulator(from, n - 1, rounds), leaf)
  }

  lemma {:induction false} RoundAdds(leaf: nat -> real, from: nat, n: nat, rounds: nat)
    requires rounds > 1
    ensures AccumulatorSum(leaf, from, n, rounds) == AccumulatorSum(leaf, from, n, rounds - 1) + Sum(leaf, from + 8 * (rounds - 1), n)
  {
    if n > 0 {
      RoundAdds(leaf, from, n - 1, rounds);
      ExactNode(Accumulator(from, n - 1, rounds - 1), Leaf(from + 8 * (rounds - 1) + n - 1), leaf);
    }
  }

  lemma {:induction false} FirstRound(leaf: nat -> real, from: nat, n: nat)
    ensures AccumulatorSum(leaf, from, n, 1) == Sum(leaf, from, n)
  {
    if n > 0 {
      FirstRound(leaf, from, n - 1);
    }
  }

  /** The interleaved accumulators together hold every sample once. */
  lemma {:induction false} AccumulatorsAreExact(leaf: nat -> real, from: nat, rounds: nat)
    requires rounds > 0
    ensures AccumulatorSum(leaf, from, 8, rounds) == Sum(leaf, from, 8 * rounds)
  {
    if rounds == 1 {
      FirstRound(leaf, from, 8);
    } else {
      AccumulatorsAreExact(leaf, from, rounds - 1);
      RoundAdds(leaf, from, 8, rounds);
      SumSplits(leaf, from, 8 * (rounds - 1), 8);
    }
  }

  lemma CollapseIsExact(leaf: nat -> real, from: nat, rounds: nat)
    requires rounds > 0
    ensures Exact(Collapse(from, rounds), leaf) == Sum(leaf, from, 8 * rounds)
  {
    AccumulatorsAreExact(leaf, from, rounds);
    EightTerms(leaf, from, rounds);
  }

  lemma EightTerms(leaf: nat -> real, from: nat, rounds: nat)
    requires rounds > 0
    ensures Exact(Collapse(from, rounds), leaf) == AccumulatorSum(leaf, from, 8, rounds)
  {
    var a0, a1 := Accumulator(from, 0, rounds), Accumulator(from, 1, rounds);
    var a2, a3 := Accumulator(from, 2, rounds), Accumulator(from, 3, rounds);
    var a4, a5 := Accumulator(from, 4, rounds), Accumulator(from, 5, rounds);
    var a6, a7 := Accumulator(from, 6, rounds), Accumulator(from, 7, rounds);
    ExactNode(a0, a1, leaf);
    ExactNode(a2, a3, leaf);
    ExactNode(a4, a5, leaf);
    ExactNode(a6, a7, leaf);
    ExactNode(Node(a0, a1), Node(a2, a3), leaf);
    ExactNode(Node(a4, a5), Node(a6, a7), leaf);
    ExactNode(Node(Node(a0, a1), Node(a2, a3)), Node(Node(a4, a5), Node(a6, a7)), leaf);
    assert AccumulatorSum(leaf, from, 1, rounds) == Exact(a0, leaf);
    assert AccumulatorSum(leaf, from, 2, rounds) == Exact(a0, leaf) + Exact(a1, leaf);
    assert AccumulatorSum(leaf, from, 4, rounds) == AccumulatorSum(leaf, from, 2, rounds) + Exact(a2, leaf) + Exact(a3, leaf);
    assert AccumulatorSum(leaf, from, 6, rounds) == AccumulatorSum(leaf, from, 4, rounds) + Exact(a4, leaf) + Exact(a5, leaf);
    assert AccumulatorSum(leaf, from, 8, rounds) == AccumulatorSum(leaf, from, 6, rounds) + Exact(a6, leaf) + Exact(a7, leaf);
  }

  /** In exact arithmetic the pairwise sum is the plain sum, for every number of samples. */
  lemma {:induction false} PairwiseIsExact(leaf: nat -> real, from: nat, count: nat)
    ensures Exact(Pairwise(from, count), leaf) == Sum(leaf, from, count)
    decreases count
  {
    if count < 8 {
      ChainIsExact(Zero, leaf, from, count);
    } else if count <= BLOCK {
      PairwiseOfBlock(from, count, count / 8, from + 8 * (count / 8), Collapse(from, count / 8));
      CollapseIsExact(leaf, from, count / 8);
      ChainIsExact(Collapse(from, count / 8), leaf, from + 8 * (count / 8), count % 8);
      SumSplits(leaf, from, 8 * (count / 8), count % 8);
    } else {
      LeftCountIsProper(count);
      var left := LeftCount(count);
      PairwiseIsExact(leaf, from, left);
      PairwiseIsExact(leaf, from + left, count - left);
      ExactNode(Pairwise(from, left), Pairwise(from + left, count - left), leaf);
      SumSplits(leaf, from, left, count - left);
    }
  }

  // How many additions a sample goes through --------------------------------------------------------------

  function Max(a: nat, b: nat): nat {
    if a < b then b else a
  }

  function Depth(t: Tree): nat {
    match t
    case Zero => 0
    case Leaf(_) => 0
    case Node(l, r) => 1 + Max(Depth(l), Depth(r))
  }

  lemma {:induction false} ChainDepth(t: Tree, from: nat, n: nat)
    ensures Depth(Chain(t, from, n)) == Depth(t) + n
  {
    if n > 0 {
      ChainDepth(t, from, n - 1);
    }
  }

  lemma {:induction false} AccumulatorDepth(from: nat, a: nat, rounds: nat)
    requires rounds > 0
    ensures Depth(Accumulator(from, a, rounds)) == rounds - 1
  {
    if rounds > 1 {
      AccumulatorDepth(from, a, rounds - 1);
    }
  }

  lemma CollapseDepth(from: nat, rounds: nat)
    requires rounds > 0
    ensures Depth(Collapse(from, rounds)) == rounds + 2
  {
    AccumulatorDepth(from, 0, rounds);
    AccumulatorDepth(from, 1, rounds);
    AccumulatorDepth(from, 2, rounds);
    AccumulatorDepth(from, 3, rounds);
    AccumulatorDepth(from, 4, rounds);
    AccumulatorDepth(from, 5, rounds);
    AccumulatorDepth(from, 6, rounds);
    AccumulatorDepth(from, 7, rounds);
    var t := Collapse(from, rounds);
    assert Depth(t.left.left) == Depth(t.left.right) == rounds;
    assert Depth(t.right.left) == Depth(t.right.right) == rounds;
    assert Depth(t.left) == Depth(t.right) == rounds + 1;
  }

  lemma BlockDepth(from: nat, count: nat)
    requires count <= BLOCK
    ensures Depth(Pairwise(from, count)) <= 25
  {
    if count < 8 {
      ChainDepth(Zero, from, count);
    } else {
      CollapseDepth(from, count / 8);
      ChainDepth(Collapse(from, count / 8), from + 8 * (count / 8), count % 8);
      BlockSteps(count);
    }
  }

  lemma BlockSteps(count: nat)
    requires 8 <= count <= BLOCK
    ensures count / 8 + 2 + count % 8 <= 25
  {
    if count == BLOCK {
      assert count / 8 == 16 && count % 8 == 0;
    } else {
      assert count / 8 <= 15;
    }
  }

  function Power(k: nat): nat {
    if k == 0 then 1 else 2 * Power(k - 1)
  }

  /** Each doubling of the number of samples costs one addition: the depth is logarithmic in the count. */
  lemma {:induction false} PairwiseDepth(from: nat, count: nat, k: nat)
    requires count <= 16 + 112 * Power(k)
    ensures Depth(Pairwise(from, count)) <= 25 + k
    decreases k
  {
    if count <= BLOCK {
      BlockDepth(from, count);
    } else {
      LeftCountIsProper(count);
      var left := LeftCount(count);
      PairwiseDepth(from, left, k - 1);
      PairwiseDepth(from + left, count - left, k - 1);
    }
  }
}
