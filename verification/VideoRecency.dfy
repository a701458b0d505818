/** Which buffers leave the partial buffers, and when: a buffer leaves when it is full, a sleeping producer sends off
    the shard that has been waiting longest, and producers sleep only when the bound is reached. */
module VideoRecency {
  import opened Collections
  import opened VideoBuffers
  import opened VideoQueue
  import opened VideoOrder
  import opened VideoRuns
  import opened VideoInvariant

  // Recency ------------------------------------------------------------------------------------------

  /** Where the last target of the shard stands among all queued targets, -1 if there is none. */
  function LastOf(c: Config, history: seq<Target>, shard: nat): (i: int)
    ensures -1 <= i < |history|
    ensures i >= 0 ==> c.Shard(history[i]) == shard
    ensures forall j :: i < j < |history| ==> c.Shard(history[j]) != shard
  {
    if history == [] then -1
    else if c.Shard(history[|history| - 1]) == shard then |history| - 1
    else LastOf(c, history[..|history| - 1], shard)
  }

  ghost predicate MoreRecent(c: Config, history: seq<Target>, a: nat, b: nat) {
    LastOf(c, history, b) < LastOf(c, history, a)
  }

  /** The list goes from the shard with the most recent target to the one that has been waiting longest. */
  ghost predicate IsLru(c: Config, history: seq<Target>, lru: seq<nat>) {
    lru != [] ==> (forall b :: b in lru[1..] ==> MoreRecent(c, history, lru[0], b)) && IsLru(c, history, lru[1..])
  }

  lemma {:induction false} WithoutIsLru(c: Config, history: seq<Target>, lru: seq<nat>, x: nat)
    requires IsLru(c, history, lru)
    ensures IsLru(c, history, Without(lru, x))
  {
    if lru != [] {
      WithoutIsLru(c, history, lru[1..], x);
      WithoutContainsOthers(lru[1..], x);
      if lru[0] != x {
        assert ([lru[0]] + Without(lru[1..], x))[1..] == Without(lru[1..], x);
      }
    }
  }

  lemma LastOfMore(c: Config, history: seq<Target>, target: Target, shard: nat)
    ensures LastOf(c, history + [target], shard) == if c.Shard(target) == shard then |history| else LastOf(c, history, shard)
  {
    assert (history + [target])[..|history|] == history;
  }

  lemma {:induction false} OthersStayLru(c: Config, history: seq<Target>, target: Target, lru: seq<nat>)
    requires IsLru(c, history, lru) && c.Shard(target) !in lru
    ensures IsLru(c, history + [target], lru)
  {
    if lru != [] {
      OthersStayLru(c, history, target, lru[1..]);
      forall b | b in lru[1..] ensures MoreRecent(c, history + [target], lru[0], b) {
        assert MoreRecent(c, history, lru[0], b);
        LastOfMore(c, history, target, lru[0]);
        LastOfMore(c, history, target, b);
      }
    }
  }

  lemma AddedIsLru(c: Config, history: seq<Target>, target: Target, lru: seq<nat>)
    requires IsLru(c, history, lru)
    ensures IsLru(c, history + [target], [c.Shard(target)] + Without(lru, c.Shard(target)))
  {
    var shard, rest := c.Shard(target), Without(lru, c.Shard(target));
    WithoutIsLru(c, history, lru, shard);
    WithoutContainsOthers(lru, shard);
    OthersStayLru(c, history, target, rest);
    LastOfMore(c, history, target, shard);
    forall b | b in rest ensures MoreRecent(c, history + [target], shard, b) {
      LastOfMore(c, history, target, b);
    }
    assert ([shard] + rest)[1..] == rest;
  }

  /** The shard at the back of the list has been waiting longest. */
  lemma {:induction false} BackIsOldest(c: Config, history: seq<Target>, lru: seq<nat>, b: nat)
    requires IsLru(c, history, lru) && b in lru
    ensures LastOf(c, history, lru[|lru| - 1]) <= LastOf(c, history, b)
  {
    if |lru| > 1 {
      assert lru[1..][|lru| - 2] == lru[|lru| - 1];
      if b == lru[0] {
        assert MoreRecent(c, history, b, lru[|lru| - 1]);
      } else {
        BackIsOldest(c, history, lru[1..], b);
      }
    }
  }

  // Sizes --------------------------------------------------------------------------------------------

  ghost predicate FitsBuffer(c: Config, b: DecodeBuffer) {
    0 < |b.targets| <= c.targetBufferSize
  }

  /** Partial buffers are not full, and ready ones not empty and at most full; at most one, `full`, may be due. */
  ghost predicate Sized(c: Config, b: Buffers, full: int) {
    && (forall s :: s in b.partialBuffers ==>
          if s == full then |b.partialBuffers[s]| <= c.targetBufferSize else |b.partialBuffers[s]| < c.targetBufferSize)
    && (forall r :: r in b.readyBuffers ==> FitsBuffer(c, r))
  }

  ghost predicate Tidy(c: Config, history: seq<Target>, b: Buffers) {
    Sized(c, b, -1) && IsLru(c, history, b.partialLru)
  }

  lemma FlushIsTidy(c: Config, history: seq<Target>, b: Buffers, shard: nat)
    requires c.FinalizeReorders() && Sized(c, b, shard) && IsLru(c, history, b.partialLru)
    requires b.Partial(shard) == [] ==> Sized(c, b, -1)
    ensures Tidy(c, history, FlushPartialBuffer(c, b, shard))
  {
    WithoutIsLru(c, history, b.partialLru, shard);
  }

  lemma QueueTargetIsTidy(c: Config, history: seq<Target>, b: Buffers, target: Target)
    requires c.Valid() && Tidy(c, history, b)
    ensures Tidy(c, history + [target], QueueTarget(c, b, target))
  {
    var shard, added := c.Shard(target), AddTarget(c, b, target);
    AddedIsLru(c, history, target, b.partialLru);
    if |added.Partial(shard)| >= c.targetBufferSize {
      FlushIsTidy(c, history + [target], added, shard);
    }
  }

  ghost function TidyOf(c: Config): (seq<Target>, Buffers) -> bool {
    (history, b) => Tidy(c, history, b)
  }

  lemma QueueAllIsTidy(c: Config, history: seq<Target>, b: Buffers, targets: seq<Target>, from: nat, to: nat)
    requires c.Valid() && Tidy(c, history, b) && from <= to <= |targets|
    ensures Tidy(c, history + targets[from..to], QueueAll(c, b, targets, from, to))
  {
    forall h, q, t | Tidy(c, h, q) ensures Tidy(c, h + [t], QueueTarget(c, q, t)) {
      QueueTargetIsTidy(c, h, q, t);
    }
    QueueAllKeepsWithHistory(c, TidyOf(c), history, b, targets, from, to);
  }

  lemma {:induction false} FlushInOrderIsTidy(c: Config, history: seq<Target>, b: Buffers, order: seq<nat>)
    requires c.Valid() && Tidy(c, history, b)
    ensures Tidy(c, history, FlushInOrder(c, b, order))
  {
    if order != [] {
      FlushInOrderIsTidy(c, history, b, order[..|order| - 1]);
      FlushIsTidy(c, history, FlushInOrder(c, b, order[..|order| - 1]), order[|order| - 1]);
    }
  }

  /** What every state of a run has. */
  ghost predicate TidyState(c: Config, s: System) {
    Tidy(c, s.history, s.queue.buffers) && forall b :: b in s.claimed ==> FitsBuffer(c, b)
  }

  lemma OldestFlushIsTidy(c: Config, history: seq<Target>, b: Buffers)
    requires c.Valid() && Tidy(c, history, b)
    ensures Tidy(c, history, FlushOldestPartialBuffer(c, b))
  {
    if b.partialLru != [] {
      FlushIsTidy(c, history, b, b.partialLru[|b.partialLru| - 1]);
    }
  }

  lemma QueuePassIsTidy(c: Config, s: System, p: nat)
    requires c.Valid() && TidyState(c, s) && p < |s.producers| && s.producers[p].position <= |s.producers[p].pending|
    ensures TidyState(c, QueuePass(c, s, p))
  {
    var task := s.producers[p];
    if s.queue.stopRequested {
      assert s.history + task.pending[task.position..task.position] == s.history;
    } else {
      var end := QueueEnd(c, s.queue, task.pending, task.position);
      var history := s.history + task.pending[task.position..end];
      QueueAllIsTidy(c, s.history, s.queue.buffers, task.pending, task.position, end);
      OldestFlushIsTidy(c, history, QueueAll(c, s.queue.buffers, task.pending, task.position, end));
    }
  }

  lemma ClaimIsTidy(c: Config, s: System, k: nat)
    requires TidyState(c, s) && Enabled(s, Claim(k))
    ensures TidyState(c, ClaimStep(s, k))
  {
    var ready := s.queue.buffers.readyBuffers;
    var i := FirstClaimable(ready, s.queue.busyShards);
    if i < |ready| {
      assert ready[i] in ready;
    }
  }

  lemma StepIsTidy(c: Config, s: System, step: Step)
    requires c.Valid() && TidyState(c, s) && Enabled(s, step)
    requires step.Advance? ==> s.producers[step.p].position <= |s.producers[step.p].pending|
    ensures TidyState(c, Next(c, s, step))
  {
    match step
    case Advance(p) =>
      if s.producers[p].position < |s.producers[p].pending| {
        QueuePassIsTidy(c, s, p);
      }
    case Settle(_, order) => FlushInOrderIsTidy(c, s.history, s.queue.buffers, order);
    case Claim(k) => ClaimIsTidy(c, s, k);
    case _ =>
  }

  lemma {:induction false} RunIsTidy(
    c: Config, states: seq<System>, steps: seq<Step>, producerThreads: nat, consumers: nat, n: nat)
    requires c.Valid() && producerThreads > 0 && Run(c, states, steps, producerThreads, consumers) && n < |states|
    ensures TidyState(c, states[n])
  {
    if n > 0 {
      RunIsTidy(c, states, steps, producerThreads, consumers, n - 1);
      RunKeepsInv(c, states, steps, producerThreads, consumers, n - 1);
      assert StepAt(c, states, steps, n - 1);
      if steps[n - 1].Advance? {
        assert TaskInv(c, states[n - 1], steps[n - 1].p);
      }
      StepIsTidy(c, states[n - 1], steps[n - 1]);
    }
  }

  // What every run guarantees ------------------------------------------------------------------------

  /** Buffers are handed out neither empty nor with more targets than they may have, and none waits that is full. */
  lemma BuffersAreSized(
    c: Config, states: seq<System>, steps: seq<Step>, producerThreads: nat, consumers: nat, n: nat)
    requires c.Valid() && producerThreads > 0 && Run(c, states, steps, producerThreads, consumers) && n < |states|
    ensures forall b :: b in states[n].claimed || b in states[n].queue.buffers.readyBuffers ==>
              0 < |b.targets| <= c.targetBufferSize
    ensures forall s :: s in states[n].queue.buffers.partialBuffers ==>
              |states[n].queue.buffers.partialBuffers[s]| < c.targetBufferSize
  {
    RunIsTidy(c, states, steps, producerThreads, consumers, n);
  }

  /** A producer goes to sleep only when as many targets are pending as are allowed, and what it sends off before is
      waiting longest: the last target of every shard that stays behind was queued later. */
  lemma SleepersSendOffTheOldest(
    c: Config, states: seq<System>, steps: seq<Step>, producerThreads: nat, consumers: nat, n: nat, p: nat)
    requires c.Valid() && producerThreads > 0 && Run(c, states, steps, producerThreads, consumers)
    requires n < |steps| && steps[n] == Advance(p) && p in states[n + 1].queue.blockedProducers
    ensures states[n + 1].queue.buffers.pendingTargetCount == c.maxPendingTargets
    ensures SentOffOldest(c, states[n + 1].history, states[n + 1].queue.buffers)
  {
    RunIsTidy(c, states, steps, producerThreads, consumers, n);
    RunKeepsInv(c, states, steps, producerThreads, consumers, n);
    assert StepAt(c, states, steps, n) && TaskInv(c, states[n], p);
    SleeperSendsOff(c, states[n], p);
  }

  /** The last ready buffer is of a shard whose last target was queued before those of all partial buffers. */
  ghost predicate SentOffOldest(c: Config, history: seq<Target>, b: Buffers) {
    b.partialBuffers != map[] ==>
      && b.readyBuffers != []
      && forall s :: s in b.partialBuffers ==>
           LastOf(c, history, b.readyBuffers[|b.readyBuffers| - 1].shardIndex) <= LastOf(c, history, s)
  }

  lemma SleeperSendsOff(c: Config, s: System, p: nat)
    requires c.Valid() && TidyState(c, s) && QueueInv(c, s.queue) && Enabled(s, Advance(p))
    requires s.producers[p].position <= |s.producers[p].pending| && p in Next(c, s, Advance(p)).queue.blockedProducers
    ensures var r := Next(c, s, Advance(p));
            r.queue.buffers.pendingTargetCount == c.maxPendingTargets && SentOffOldest(c, r.history, r.queue.buffers)
  {
    var task := s.producers[p];
    var end := QueueEnd(c, s.queue, task.pending, task.position);
    QueueAllIsTidy(c, s.history, s.queue.buffers, task.pending, task.position, end);
    QueueAllCounts(c, s.queue.buffers, task.pending, task.position, end);
    QueueAllKeepsInv(c, s.queue.buffers, task.pending, task.position, end);
    OldestLeaves(c, s.history + task.pending[task.position..end],
                 QueueAll(c, s.queue.buffers, task.pending, task.position, end));
  }

  lemma OldestLeaves(c: Config, history: seq<Target>, b: Buffers)
    requires c.Valid() && Tidy(c, history, b) && LruMatches(b) && Sharded(c, b)
    ensures FlushOldestPartialBuffer(c, b).pendingTargetCount == b.pendingTargetCount
    ensures SentOffOldest(c, history, FlushOldestPartialBuffer(c, b))
  {
    if b.partialLru == [] {
      assert b.partialBuffers == map[];
    } else {
      var shard := b.partialLru[|b.partialLru| - 1];
      assert shard in b.partialLru;
      assert PartialOfShard(c, b, shard);
      forall s | s in b.partialBuffers ensures LastOf(c, history, shard) <= LastOf(c, history, s) {
        BackIsOldest(c, history, b.partialLru, s);
      }
    }
  }
}
