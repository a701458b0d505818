/** NumpyPairwiseStats for one dimension: sums and sums of squares in NumPy's order, with the extrema
    collected on the way, in a single pass over the samples. */
module PairwiseStats {
  import opened PairwiseSum

  /** The arithmetic of the statistics' number type; rounding may make its operations anything. */
  datatype Arithmetic<!T> = Arithmetic(zero: T, add: (T, T) -> T, mul: (T, T) -> T, toReal: T -> real)

  /** Infinity stands for the extremum of nothing. */
  datatype Extremum = Infinite | Finite(value: real)

  function Lower(a: Extremum, x: real): Extremum {
    if a.Finite? && a.value <= x then a else Finite(x)
  }

  function Higher(a: Extremum, x: real): Extremum {
    if a.Finite? && a.value >= x then a else Finite(x)
  }

  function LeastOf<T>(samples: seq<T>, toReal: T -> real, n: nat): Extremum
    requires n <= |samples|
  {
    if n == 0 then Infinite else Lower(LeastOf(samples, toReal, n - 1), toReal(samples[n - 1]))
  }

  function GreatestOf<T>(samples: seq<T>, toReal: T -> real, n: nat): Extremum
    requires n <= |samples|
  {
    if n == 0 then Infinite else Higher(GreatestOf(samples, toReal, n - 1), toReal(samples[n - 1]))
  }

  lemma {:induction false} ExtremaBound<T>(samples: seq<T>, toReal: T -> real, n: nat, i: nat)
    requires i < n <= |samples|
    ensures LeastOf(samples, toReal, n).Finite? && LeastOf(samples, toReal, n).value <= toReal(samples[i])
    ensures GreatestOf(samples, toReal, n).Finite? && toReal(samples[i]) <= GreatestOf(samples, toReal, n).value
  {
    if i < n - 1 {
      ExtremaBound(samples, toReal, n - 1, i);
    }
  }

  lemma {:induction false} ExtremaOccur<T>(samples: seq<T>, toReal: T -> real, n: nat)
    requires 0 < n <= |samples|
    ensures exists i, j :: 0 <= i < n && 0 <= j < n
              && LeastOf(samples, toReal, n) == Finite(toReal(samples[i]))
              && GreatestOf(samples, toReal, n) == Finite(toReal(samples[j]))
  {
    if n > 1 {
      ExtremaOccur(samples, toReal, n - 1);
      var i, j :| 0 <= i < n - 1 && 0 <= j < n - 1
        && LeastOf(samples, toReal, n - 1) == Finite(toReal(samples[i]))
        && GreatestOf(samples, toReal, n - 1) == Finite(toReal(samples[j]));
      var i' := if LeastOf(samples, toReal, n) == LeastOf(samples, toReal, n - 1) then i else n - 1;
      var j' := if GreatestOf(samples, toReal, n) == GreatestOf(samples, toReal, n - 1) then j else n - 1;
      assert LeastOf(samples, toReal, n) == Finite(toReal(samples[i'])) && GreatestOf(samples, toReal, n) == Finite(toReal(samples[j']));
    } else {
      assert LeastOf(samples, toReal, 1) == Finite(toReal(samples[0])) && GreatestOf(samples, toReal, 1) == Finite(toReal(samples[0]));
    }
  }

  class Reduction<T> {
    const ops: Arithmetic<T>
    const samples: seq<T>
    /** Sample i and its square, as the leaves of sum trees. */
    ghost const leaf: nat -> T
    ghost const square: nat -> T
    /** The values of sum trees over them, as functions that proofs look into one node at a time. */
    ghost const sumOf: Tree -> T
    ghost const squaresOf: Tree -> T

    var position: nat
    var minimum: Extremum
    var maximum: Extremum

    ghost predicate Valid()
      reads this
    {
      && position <= |samples|
      && (forall i: nat :: i < |samples| ==> LeafIs(i)) && (forall t :: TreeIs(t))
      && minimum == LeastOf(samples, ops.toReal, position) && maximum == GreatestOf(samples, ops.toReal, position)
    }

    ghost predicate LeafIs(i: nat) {
      i < |samples| && leaf(i) == samples[i] && square(i) == ops.mul(samples[i], samples[i])
    }

    ghost predicate TreeIs(t: Tree) {
      sumOf(t) == Eval(t, ops.zero, ops.add, leaf) && squaresOf(t) == Eval(t, ops.zero, ops.add, square)
    }

    constructor (ops: Arithmetic<T>, samples: seq<T>)
      ensures Valid() && position == 0 && this.ops == ops && this.samples == samples
    {
      this.ops, this.samples := ops, samples;
      ghost var leaves := (i: nat) => if i < |samples| then samples[i] else ops.zero;
      ghost var squares := (i: nat) => if i < |samples| then ops.mul(samples[i], samples[i]) else ops.zero;
      leaf, square := leaves, squares;
      sumOf := (t: Tree) => Eval(t, ops.zero, ops.add, leaves);
      squaresOf := (t: Tree) => Eval(t, ops.zero, ops.add, squares);
      position, minimum, maximum := 0, Infinite, Infinite;
    }

    /** Read the next sample. */
    method Next() returns (value: T, product: T)
      requires Valid() && position < |samples|
      modifies this
      ensures Valid() && position == old(position) + 1
      ensures value == sumOf(Leaf(old(position))) && product == squaresOf(Leaf(old(position)))
    {
      assert LeafIs(position) && TreeIs(Leaf(position));
      value := samples[position];
      minimum := Lower(minimum, ops.toReal(value));
      maximum := Higher(maximum, ops.toReal(value));
      product := ops.mul(value, value);
      position := position + 1;
    }

    lemma AddNodes(l: Tree, r: Tree)
      requires forall t :: TreeIs(t)
      ensures sumOf(Node(l, r)) == ops.add(sumOf(l), sumOf(r))
      ensures squaresOf(Node(l, r)) == ops.add(squaresOf(l), squaresOf(r))
    {
      assert TreeIs(l) && TreeIs(r) && TreeIs(Node(l, r));
    }

    /** Add count samples to the sums one by one. */
    method AddChain(sum0: T, squareSum0: T, count: nat, ghost t: Tree) returns (sum: T, squareSum: T)
      requires Valid() && position + count <= |samples| && sum0 == sumOf(t) && squareSum0 == squaresOf(t)
      modifies this
      ensures Valid() && position == old(position) + count
      ensures sum == sumOf(Chain(t, old(position), count)) && squareSum == squaresOf(Chain(t, old(position), count))
    {
      sum, squareSum := sum0, squareSum0;
      for index := 0 to count
        invariant Valid() && position == old(position) + index
        invariant sum == sumOf(Chain(t, old(position), index)) && squareSum == squaresOf(Chain(t, old(position), index))
      {
        AddNodes(Chain(t, old(position), index), Leaf(old(position) + index));
        var value, product := Next();
        sum := ops.add(sum, value);
        squareSum := ops.add(squareSum, product);
      }
    }

    ghost predicate Accumulates(accumulators: seq<T>, squares: seq<T>, from: nat, a: nat, rounds: nat)
      requires rounds > 0
    {
      && a < |accumulators| && a < |squares|
      && accumulators[a] == sumOf(Accumulator(from, a, rounds)) && squares[a] == squaresOf(Accumulator(from, a, rounds))
    }

    /** The first eight samples, one per accumulator. */
    method FirstRound() returns (accumulators: seq<T>, squares: seq<T>)
      requires Valid() && position + 8 <= |samples|
      modifies this
      ensures Valid() && position == old(position) + 8 && |accumulators| == |squares| == 8
      ensures forall a: nat :: a < 8 ==> Accumulates(accumulators, squares, old(position), a, 1)
    {
      accumulators, squares := seq(8, _ => ops.zero), seq(8, _ => ops.zero);
      for a := 0 to 8
        invariant Valid() && position == old(position) + a && |accumulators| == |squares| == 8
        invariant forall b: nat :: b < a ==> Accumulates(accumulators, squares, old(position), b, 1)
      {
        ghost var before, beforeSquares := accumulators, squares;
        var value, product := Next();
        accumulators, squares := accumulators[a := value], squares[a := product];
        forall b: nat | b < a ensures Accumulates(accumulators, squares, old(position), b, 1) {
          assert Accumulates(before, beforeSquares, old(position), b, 1);
        }
      }
    }

    /** Eight more samples, one added to each accumulator. */
    method NextRound(accumulators: seq<T>, squares: seq<T>, ghost from: nat, ghost rounds: nat, ghost next: nat)
      returns (accumulators': seq<T>, squares': seq<T>)
      requires Valid() && position + 8 <= |samples| && rounds > 0 && position == from + 8 * rounds && next == rounds + 1
      requires |accumulators| == |squares| == 8
      requires forall a: nat :: a < 8 ==> Accumulates(accumulators, squares, from, a, rounds)
      modifies this
      ensures Valid() && position == old(position) + 8 && |accumulators'| == |squares'| == 8
      ensures forall a: nat :: a < 8 ==> Accumulates(accumulators', squares', from, a, next)
    {
      accumulators', squares' := accumulators, squares;
      for a := 0 to 8
        invariant Valid() && position == old(position) + a && |accumulators'| == |squares'| == 8
        invariant forall b: nat :: b < a ==> Accumulates(accumulators', squares', from, b, next)
        invariant forall b: nat :: a <= b < 8 ==> accumulators'[b] == accumulators[b] && squares'[b] == squares[b]
      {
        assert Accumulates(accumulators, squares, from, a, rounds);
        AddNodes(Accumulator(from, a, rounds), Leaf(from + 8 * rounds + a));
        ghost var before, beforeSquares := accumulators', squares';
        var value, product := Next();
        accumulators' := accumulators'[a := ops.add(accumulators'[a], value)];
        squares' := squares'[a := ops.add(squares'[a], product)];
        forall b: nat | b < a ensures Accumulates(accumulators', squares', from, b, next) {
          assert Accumulates(before, beforeSquares, from, b, next);
        }
      }
    }

    method CollapseEight(v: seq<T>) returns (sum: T)
      requires |v| == 8
      ensures sum == CollapseOf(v)
    {
      var sum01 := ops.add(v[0], v[1]);
      var sum23 := ops.add(v[2], v[3]);
      var sum45 := ops.add(v[4], v[5]);
      var sum67 := ops.add(v[6], v[7]);
      var sum0123 := ops.add(sum01, sum23);
      var sum4567 := ops.add(sum45, sum67);
      sum := ops.add(sum0123, sum4567);
    }

    ghost function CollapseOf(v: seq<T>): T
      requires |v| == 8
    {
      ops.add(ops.add(ops.add(v[0], v[1]), ops.add(v[2], v[3])), ops.add(ops.add(v[4], v[5]), ops.add(v[6], v[7])))
    }

    lemma CollapseIs(accumulators: seq<T>, squares: seq<T>, from: nat, rounds: nat)
      requires |accumulators| == |squares| == 8 && rounds > 0 && forall t :: TreeIs(t)
      requires forall a: nat :: a < 8 ==> Accumulates(accumulators, squares, from, a, rounds)
      ensures CollapseOf(accumulators) == sumOf(Collapse(from, rounds))
      ensures CollapseOf(squares) == squaresOf(Collapse(from, rounds))
    {
      assert Accumulates(accumulators, squares, from, 0, rounds) && Accumulates(accumulators, squares, from, 1, rounds);
      assert Accumulates(accumulators, squares, from, 2, rounds) && Accumulates(accumulators, squares, from, 3, rounds);
      assert Accumulates(accumulators, squares, from, 4, rounds) && Accumulates(accumulators, squares, from, 5, rounds);
      assert Accumulates(accumulators, squares, from, 6, rounds) && Accumulates(accumulators, squares, from, 7, rounds);
      var t := Collapse(from, rounds);
      AddNodes(t.left.left.left, t.left.left.right);
      AddNodes(t.left.right.left, t.left.right.right);
      AddNodes(t.right.left.left, t.right.left.right);
      AddNodes(t.right.right.left, t.right.right.right);
      AddNodes(t.left.left, t.left.right);
      AddNodes(t.right.left, t.right.right);
      AddNodes(t.left, t.right);
    }

    /** The full rounds of a block: eight accumulators over the first count - count % 8 samples. */
    method AddRounds(count: nat, ghost rounds: nat) returns (accumulators: seq<T>, squares: seq<T>)
      requires Valid() && count >= 8 && rounds == count / 8 && position + 8 * rounds <= |samples|
      modifies this
      ensures Valid() && position == old(position) + 8 * rounds && |accumulators| == |squares| == 8
      ensures forall a: nat :: a < 8 ==> Accumulates(accumulators, squares, old(position), a, rounds)
    {
      ghost var from := position;
      accumulators, squares := FirstRound();
      var index := 8;
      ghost var done := 1;
      while index < count - count % 8
        invariant Valid() && done > 0 && index == 8 * done <= 8 * rounds && position == from + index
        invariant |accumulators| == |squares| == 8
        invariant forall a: nat :: a < 8 ==> Accumulates(accumulators, squares, from, a, done)
      {
        accumulators, squares := NextRound(accumulators, squares, from, done, done + 1);
        done := done + 1;
        index := index + 8;
      }
    }

    /** A block of 8 to 128 samples. */
    method AddBlock(count: nat) returns (sum: T, squareSum: T)
      requires Valid() && 8 <= count <= BLOCK && position + count <= |samples|
      modifies this
      ensures Valid() && position == old(position) + count
      ensures sum == sumOf(Pairwise(old(position), count)) && squareSum == squaresOf(Pairwise(old(position), count))
    {
      ghost var from, rounds := position, count / 8;
      var accumulators, squares := AddRounds(count, rounds);
      CollapseIs(accumulators, squares, from, rounds);
      sum := CollapseEight(accumulators);
      squareSum := CollapseEight(squares);
      ghost var collapsed := Collapse(from, rounds);
      PairwiseOfBlock(from, count, rounds, position, collapsed);
      sum, squareSum := AddChain(sum, squareSum, count % 8, collapsed);
    }

    /** Sum and sum of squares of the next count samples. */
    method NumpyPairwiseStats(count: nat) returns (sum: T, squareSum: T)
      requires Valid() && position + count <= |samples|
      modifies this
      ensures Valid() && position == old(position) + count
      ensures sum == sumOf(Pairwise(old(position), count)) && squareSum == squaresOf(Pairwise(old(position), count))
      decreases count
    {
      if count < 8 {
        assert TreeIs(Zero);
        sum, squareSum := AddChain(ops.zero, ops.zero, count, Zero);
        return;
      }
      if count <= BLOCK {
        sum, squareSum := AddBlock(count);
        return;
      }
      LeftCountIsProper(count);
      var leftCount := count / 2;
      leftCount := leftCount - leftCount % 8;
      AddNodes(Pairwise(position, leftCount), Pairwise(position + leftCount, count - leftCount));
      var left, leftSquares := NumpyPairwiseStats(leftCount);
      var right, rightSquares := NumpyPairwiseStats(count - leftCount);
      sum := ops.add(left, right);
      squareSum := ops.add(leftSquares, rightSquares);
    }
  }

  /** All samples in one pass: each is read once, in order, and the sums are those of the pairwise trees. */
  method Reduce<T>(ops: Arithmetic<T>, samples: seq<T>)
    returns (sum: T, squareSum: T, minimum: Extremum, maximum: Extremum, ghost leaf: nat -> T, ghost square: nat -> T)
    ensures forall i: nat :: i < |samples| ==> leaf(i) == samples[i]
    ensures forall i: nat :: i < |samples| ==> square(i) == ops.mul(samples[i], samples[i])
    ensures sum == Eval(Pairwise(0, |samples|), ops.zero, ops.add, leaf)
    ensures squareSum == Eval(Pairwise(0, |samples|), ops.zero, ops.add, square)
    ensures minimum == LeastOf(samples, ops.toReal, |samples|) && maximum == GreatestOf(samples, ops.toReal, |samples|)
  {
    var reduction := new Reduction(ops, samples);
    sum, squareSum := reduction.NumpyPairwiseStats(|samples|);
    assert reduction.TreeIs(Pairwise(0, |samples|));
    forall i: nat | i < |samples| ensures reduction.leaf(i) == samples[i] && reduction.square(i) == ops.mul(samples[i], samples[i]) {
      assert reduction.LeafIs(i);
    }
    minimum, maximum, leaf, square := reduction.minimum, reduction.maximum, reduction.leaf, reduction.square;
  }
}
