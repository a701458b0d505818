/** Per shard, the buffers of a queue cut the queued targets into consecutive pieces. */
module VideoOrder {
  import opened VideoBuffers
  import opened VideoQueue

  function OfShard(c: Config, targets: seq<Target>, shard: nat): seq<Target> {
    if targets == [] then []
    else
      var last := |targets| - 1;
      OfShard(c, targets[..last], shard) + (if c.Shard(targets[last]) == shard then [targets[last]] else [])
  }

  function BuffersOf(buffers: seq<DecodeBuffer>, shard: nat): seq<DecodeBuffer> {
    if buffers == [] then []
    else (if buffers[0].shardIndex == shard then [buffers[0]] else []) + BuffersOf(buffers[1..], shard)
  }

  /** `queued` is cut, front to back, into one piece per buffer and a rest; a buffer holds its piece
      in sorted order. */
  ghost predicate CutInOrder(queued: seq<Target>, buffers: seq<DecodeBuffer>, rest: seq<Target>) {
    if buffers == [] then queued == rest
    else
      var n := |buffers[0].targets|;
      && n <= |queued|
      && multiset(queued[..n]) == multiset(buffers[0].targets)
      && CutInOrder(queued[n..], buffers[1..], rest)
  }

  /** Claimed, then ready, then partial: the queue order of one shard. */
  ghost predicate ShardInOrder(c: Config, history: seq<Target>, claimed: seq<DecodeBuffer>, b: Buffers, shard: nat) {
    CutInOrder(OfShard(c, history, shard), BuffersOf(claimed, shard) + BuffersOf(b.readyBuffers, shard),
               b.Partial(shard))
  }

  ghost predicate KeepsOrder(c: Config, history: seq<Target>, claimed: seq<DecodeBuffer>, b: Buffers) {
    forall shard: nat :: ShardInOrder(c, history, claimed, b, shard)
  }

  lemma {:induction false} CutGrows(queued: seq<Target>, buffers: seq<DecodeBuffer>, rest: seq<Target>, t: Target)
    requires CutInOrder(queued, buffers, rest)
    ensures CutInOrder(queued + [t], buffers, rest + [t])
  {
    if buffers != [] {
      var n := |buffers[0].targets|;
      assert (queued + [t])[..n] == queued[..n];
      assert (queued + [t])[n..] == queued[n..] + [t];
      CutGrows(queued[n..], buffers[1..], rest, t);
    }
  }

  lemma {:induction false} CutFlushes(queued: seq<Target>, buffers: seq<DecodeBuffer>, rest: seq<Target>, b: DecodeBuffer)
    requires CutInOrder(queued, buffers, rest)
    requires multiset(b.targets) == multiset(rest)
    ensures CutInOrder(queued, buffers + [b], [])
  {
    if buffers == [] {
      assert |multiset(b.targets)| == |multiset(rest)|;
      assert queued[..|b.targets|] == rest;
      assert [b][1..] == [];
    } else {
      assert (buffers + [b])[1..] == buffers[1..] + [b];
      CutFlushes(queued[|buffers[0].targets|..], buffers[1..], rest, b);
    }
  }

  lemma {:induction false} BuffersOfConcat(a: seq<DecodeBuffer>, b: seq<DecodeBuffer>, shard: nat)
    ensures BuffersOf(a + b, shard) == BuffersOf(a, shard) + BuffersOf(b, shard)
  {
    if a == [] {
      assert a + b == b;
    } else {
      assert (a + b)[1..] == a[1..] + b;
      BuffersOfConcat(a[1..], b, shard);
    }
  }

  /** What a flush does to the two sides of a shard's cut. */
  lemma FlushMovesPartial(c: Config, b: Buffers, flushed: nat, shard: nat)
    requires c.FinalizeReorders() && b.Partial(flushed) != []
    ensures var r := FlushPartialBuffer(c, b, flushed);
            var buffer := c.finalize(DecodeBuffer(flushed, b.Partial(flushed), []));
            && multiset(buffer.targets) == multiset(b.Partial(flushed))
            && r.Partial(shard) == (if shard == flushed then [] else b.Partial(shard))
            && BuffersOf(r.readyBuffers, shard)
               == BuffersOf(b.readyBuffers, shard) + (if shard == flushed then [buffer] else [])
  {
    var buffer := c.finalize(DecodeBuffer(flushed, b.Partial(flushed), []));
    BuffersOfConcat(b.readyBuffers, [buffer], shard);
    OneBuffer(buffer, shard);
  }

  lemma FlushKeepsOrder(c: Config, history: seq<Target>, claimed: seq<DecodeBuffer>, b: Buffers, flushed: nat, shard: nat)
    requires c.FinalizeReorders() && ShardInOrder(c, history, claimed, b, shard)
    ensures ShardInOrder(c, history, claimed, FlushPartialBuffer(c, b, flushed), shard)
  {
    if b.Partial(flushed) != [] {
      FlushMovesPartial(c, b, flushed, shard);
      var gone, ready := BuffersOf(claimed, shard), BuffersOf(b.readyBuffers, shard);
      if shard == flushed {
        var buffer := c.finalize(DecodeBuffer(flushed, b.Partial(flushed), []));
        CutFlushes(OfShard(c, history, shard), gone + ready, b.Partial(shard), buffer);
        AppendAssociates(gone, ready, buffer);
      } else {
        assert ready + [] == ready;
      }
    }
  }

  lemma AppendAssociates(a: seq<DecodeBuffer>, b: seq<DecodeBuffer>, last: DecodeBuffer)
    ensures a + b + [last] == a + (b + [last])
  {
  }

  lemma OneBuffer(buffer: DecodeBuffer, shard: nat)
    ensures BuffersOf([buffer], shard) == if buffer.shardIndex == shard then [buffer] else []
  {
    assert BuffersOf([], shard) == [];
  }

  lemma OfShardAppend(c: Config, history: seq<Target>, target: Target, shard: nat)
    ensures OfShard(c, history + [target], shard)
         == OfShard(c, history, shard) + (if c.Shard(target) == shard then [target] else [])
  {
    assert (history + [target])[..|history|] == history;
  }

  lemma AddKeepsOrder(c: Config, history: seq<Target>, claimed: seq<DecodeBuffer>, b: Buffers, target: Target, shard: nat)
    requires ShardInOrder(c, history, claimed, b, shard)
    ensures ShardInOrder(c, history + [target], claimed, AddTarget(c, b, target), shard)
  {
    OfShardAppend(c, history, target, shard);
    if shard == c.Shard(target) {
      CutGrows(OfShard(c, history, shard), BuffersOf(claimed, shard) + BuffersOf(b.readyBuffers, shard),
               b.Partial(shard), target);
    } else {
      assert OfShard(c, history, shard) + [] == OfShard(c, history, shard);
    }
  }

  /** A property of history and buffers that queueing one more target keeps. */
  ghost predicate KeptByQueueing(c: Config, inv: (seq<Target>, Buffers) -> bool) {
    forall history, b, target :: inv(history, b) ==> inv(history + [target], QueueTarget(c, b, target))
  }

  lemma {:induction false} QueueAllKeepsWithHistory(
    c: Config, inv: (seq<Target>, Buffers) -> bool, history: seq<Target>, b: Buffers, targets: seq<Target>, from: nat, to: nat)
    requires from <= to <= |targets|
    requires KeptByQueueing(c, inv) && inv(history, b)
    ensures inv(history + targets[from..to], QueueAll(c, b, targets, from, to))
  {
    if from == to {
      assert history + targets[from..to] == history;
    } else {
      QueueAllKeepsWithHistory(c, inv, history, b, targets, from, to - 1);
      assert history + targets[from..to - 1] + [targets[to - 1]] == history + targets[from..to];
    }
  }

  ghost function OrderOf(c: Config, claimed: seq<DecodeBuffer>, shard: nat): (seq<Target>, Buffers) -> bool {
    (history, b) => ShardInOrder(c, history, claimed, b, shard)
  }

  lemma QueueingKeepsOrder(c: Config, claimed: seq<DecodeBuffer>, shard: nat)
    requires c.FinalizeReorders()
    ensures KeptByQueueing(c, OrderOf(c, claimed, shard))
  {
    forall history, b, target | ShardInOrder(c, history, claimed, b, shard)
      ensures ShardInOrder(c, history + [target], claimed, QueueTarget(c, b, target), shard)
    {
      AddKeepsOrder(c, history, claimed, b, target, shard);
      FlushKeepsOrder(c, history + [target], claimed, AddTarget(c, b, target), c.Shard(target), shard);
    }
  }

  lemma QueueAllKeepsOrder(
    c: Config, history: seq<Target>, claimed: seq<DecodeBuffer>, b: Buffers, targets: seq<Target>, from: nat, to: nat)
    requires from <= to <= |targets|
    requires c.FinalizeReorders() && KeepsOrder(c, history, claimed, b)
    ensures KeepsOrder(c, history + targets[from..to], claimed, QueueAll(c, b, targets, from, to))
  {
    forall shard: nat
      ensures ShardInOrder(c, history + targets[from..to], claimed, QueueAll(c, b, targets, from, to), shard)
    {
      assert ShardInOrder(c, history, claimed, b, shard);
      QueueingKeepsOrder(c, claimed, shard);
      QueueAllKeepsWithHistory(c, OrderOf(c, claimed, shard), history, b, targets, from, to);
    }
  }

  lemma {:induction false} FlushInOrderKeepsShardOrder(
    c: Config, history: seq<Target>, claimed: seq<DecodeBuffer>, b: Buffers, order: seq<nat>, shard: nat)
    requires c.FinalizeReorders() && ShardInOrder(c, history, claimed, b, shard)
    ensures ShardInOrder(c, history, claimed, FlushInOrder(c, b, order), shard)
  {
    if order != [] {
      var last := |order| - 1;
      FlushInOrderKeepsShardOrder(c, history, claimed, b, order[..last], shard);
      FlushKeepsOrder(c, history, claimed, FlushInOrder(c, b, order[..last]), order[last], shard);
    }
  }

  lemma FlushInOrderKeepsOrder(c: Config, history: seq<Target>, claimed: seq<DecodeBuffer>, b: Buffers, order: seq<nat>)
    requires c.FinalizeReorders() && KeepsOrder(c, history, claimed, b)
    ensures KeepsOrder(c, history, claimed, FlushInOrder(c, b, order))
  {
    forall shard: nat
      ensures ShardInOrder(c, history, claimed, FlushInOrder(c, b, order), shard)
    {
      assert ShardInOrder(c, history, claimed, b, shard);
      FlushInOrderKeepsShardOrder(c, history, claimed, b, order, shard);
    }
  }

  lemma FlushOldestKeepsOrder(c: Config, history: seq<Target>, claimed: seq<DecodeBuffer>, b: Buffers)
    requires c.FinalizeReorders() && KeepsOrder(c, history, claimed, b)
    ensures KeepsOrder(c, history, claimed, FlushOldestPartialBuffer(c, b))
  {
    forall shard: nat
      ensures ShardInOrder(c, history, claimed, FlushOldestPartialBuffer(c, b), shard)
    {
      assert ShardInOrder(c, history, claimed, b, shard);
      if b.partialLru != [] {
        FlushKeepsOrder(c, history, claimed, b, b.partialLru[|b.partialLru| - 1], shard);
      }
    }
  }

  lemma {:induction false} NoneOf(buffers: seq<DecodeBuffer>, shard: nat)
    requires forall b :: b in buffers ==> b.shardIndex != shard
    ensures BuffersOf(buffers, shard) == []
  {
    if buffers != [] {
      NoneOf(buffers[1..], shard);
    }
  }

  /** Taking the first buffer of its shard out of the ready queue appends it to the claimed ones. */
  lemma BuffersAfterClaim(claimed: seq<DecodeBuffer>, before: seq<DecodeBuffer>, b: DecodeBuffer, after: seq<DecodeBuffer>, shard: nat)
    requires forall r :: r in before ==> r.shardIndex != b.shardIndex
    ensures BuffersOf(claimed, shard) + BuffersOf(before + ([b] + after), shard)
         == BuffersOf(claimed + [b], shard) + BuffersOf(before + after, shard)
  {
    BuffersOfConcat(before, [b] + after, shard);
    BuffersOfConcat([b], after, shard);
    BuffersOfConcat(before, after, shard);
    BuffersOfConcat(claimed, [b], shard);
    OneBuffer(b, shard);
    if shard == b.shardIndex {
      NoneOf(before, shard);
    }
    Regroup(BuffersOf(claimed, shard), BuffersOf(before, shard), BuffersOf([b], shard), BuffersOf(after, shard));
  }

  lemma Regroup(a: seq<DecodeBuffer>, before: seq<DecodeBuffer>, one: seq<DecodeBuffer>, after: seq<DecodeBuffer>)
    requires before == [] || one == []
    ensures a + (before + (one + after)) == (a + one) + (before + after)
  {
    assert before == [] ==> before + (one + after) == one + after && before + after == after;
    assert one == [] ==> one + after == after && a + one == a;
  }

  /** The claimed buffer is the oldest ready one of its shard. */
  lemma ClaimKeepsOrder(c: Config, history: seq<Target>, claimed: seq<DecodeBuffer>, q: Queue)
    requires KeepsOrder(c, history, claimed, q.buffers) && ClaimBuffer(q).1.Claimed?
    ensures KeepsOrder(c, history, claimed + [ClaimBuffer(q).1.buffer], ClaimBuffer(q).0.buffers)
  {
    var ready := q.buffers.readyBuffers;
    var i := FirstClaimable(ready, q.busyShards);
    assert ready == ready[..i] + ([ready[i]] + ready[i + 1..]);
    forall shard: nat
      ensures ShardInOrder(c, history, claimed + [ready[i]], TakeReady(q.buffers, i), shard)
    {
      assert ShardInOrder(c, history, claimed, q.buffers, shard);
      BuffersAfterClaim(claimed, ready[..i], ready[i], ready[i + 1..], shard);
    }
  }

  // A shard whose buffers have all been claimed has had all its targets claimed --------------------

  function TargetsOf(buffers: seq<DecodeBuffer>): seq<Target> {
    if buffers == [] then [] else buffers[0].targets + TargetsOf(buffers[1..])
  }

  lemma {:induction false} CutIsExhaustive(queued: seq<Target>, buffers: seq<DecodeBuffer>)
    requires CutInOrder(queued, buffers, [])
    ensures multiset(queued) == multiset(TargetsOf(buffers))
  {
    if buffers != [] {
      var n := |buffers[0].targets|;
      assert queued == queued[..n] + queued[n..];
      CutIsExhaustive(queued[n..], buffers[1..]);
    }
  }

  lemma {:induction false} OfShardCounts(c: Config, targets: seq<Target>, t: Target)
    ensures multiset(OfShard(c, targets, c.Shard(t)))[t] == multiset(targets)[t]
  {
    if targets != [] {
      var last := |targets| - 1;
      assert targets == targets[..last] + [targets[last]];
      OfShardCounts(c, targets[..last], t);
    }
  }

  lemma {:induction false} BuffersOfCounts(c: Config, buffers: seq<DecodeBuffer>, t: Target)
    requires forall b :: b in buffers ==> BufferOfShard(c, b)
    ensures multiset(TargetsOf(BuffersOf(buffers, c.Shard(t))))[t] == multiset(TargetsOf(buffers))[t]
  {
    if buffers != [] {
      BuffersOfCounts(c, buffers[1..], t);
      assert BufferOfShard(c, buffers[0]);
      var rest := BuffersOf(buffers[1..], c.Shard(t));
      if buffers[0].shardIndex == c.Shard(t) {
        assert ([buffers[0]] + rest)[1..] == rest;
      } else {
        assert t !in buffers[0].targets;
        assert [] + rest == rest;
      }
    }
  }

  /** With nothing ready and nothing partial, the claimed buffers hold exactly the queued targets. */
  lemma AllClaimed(c: Config, history: seq<Target>, claimed: seq<DecodeBuffer>, b: Buffers)
    requires KeepsOrder(c, history, claimed, b)
    requires forall r :: r in claimed ==> BufferOfShard(c, r)
    requires b.readyBuffers == [] && b.partialBuffers == map[]
    ensures multiset(TargetsOf(claimed)) == multiset(history)
  {
    forall t: Target
      ensures multiset(TargetsOf(claimed))[t] == multiset(history)[t]
    {
      var shard := c.Shard(t);
      assert ShardInOrder(c, history, claimed, b, shard);
      assert BuffersOf(claimed, shard) + BuffersOf([], shard) == BuffersOf(claimed, shard);
      CutIsExhaustive(OfShard(c, history, shard), BuffersOf(claimed, shard));
      OfShardCounts(c, history, t);
      BuffersOfCounts(c, claimed, t);
    }
  }
}
