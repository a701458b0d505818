/** Every step of a video scan keeps the invariant of VideoRuns, so every reachable state has it. */
module VideoInvariant {
  import opened VideoBuffers
  import opened VideoQueue
  import opened VideoOrder
  import opened VideoRuns
  import opened Sums

  // The initial state ---------------------------------------------------------------------------

  ghost function StrideOf(c: Config, stride: nat): nat -> multiset<Target> {
    (q: nat) => if stride > 0 then multiset(StrideTargets(c, q, stride)) else multiset{}
  }

  lemma StrideStep(c: Config, q: nat, stride: nat)
    requires stride > 0 && q < |c.queries|
    ensures StrideOf(c, stride)(q) == multiset(RowTargets(c.queries[q])) + StrideOf(c, stride)(q + stride)
    ensures multiset(TargetsFrom(c, q)) == multiset(RowTargets(c.queries[q])) + multiset(TargetsFrom(c, q + 1))
  {
  }

  /** Every query belongs to exactly one producer: the strides together are all queries. */
  lemma {:induction false} StridesCoverQueries(c: Config, base: nat, stride: nat)
    requires stride > 0
    ensures Span(StrideOf(c, stride), base, stride) == multiset(TargetsFrom(c, base))
    decreases |c.queries| - base
  {
    if base >= |c.queries| {
      EmptyStrides(c, base, stride, stride);
    } else {
      var f := StrideOf(c, stride);
      StridesCoverQueries(c, base + 1, stride);
      SpanShift(f, base, stride);
      StrideStep(c, base, stride);
      CancelPart(Span(f, base, stride), f(base + stride), multiset(RowTargets(c.queries[base])),
             multiset(TargetsFrom(c, base + 1)));
    }
  }

  lemma {:induction false} EmptyStrides(c: Config, base: nat, n: nat, stride: nat)
    requires stride > 0 && base >= |c.queries|
    ensures Span(StrideOf(c, stride), base, n) == multiset{}
  {
    if n > 0 {
      EmptyStrides(c, base, n - 1, stride);
    }
  }

  lemma FreshProducerOwes(c: Config, q: nat, stride: nat)
    requires stride > 0
    ensures OwedBy(c, stride)(Producer(Running, [], 0, NoQuery, q)) == StrideOf(c, stride)(q)
  {
    var later := StrideTargets(c, q, stride);
    assert [] + [] + later == later;
    assert Owed(c, stride, Producer(Running, [], 0, NoQuery, q)) == later;
  }

  lemma FreshProducersOwe(c: Config, tasks: seq<Producer>, stride: nat)
    requires stride > 0
    requires forall p :: 0 <= p < |tasks| ==> tasks[p] == Producer(Running, [], 0, NoQuery, p)
    ensures Gather(OwedBy(c, stride), tasks, |tasks|) == Span(StrideOf(c, stride), 0, |tasks|)
  {
    forall p: nat | p < |tasks|
      ensures OwedBy(c, stride)(tasks[p]) == StrideOf(c, stride)(p)
    {
      FreshProducerOwes(c, p, stride);
    }
    GatherIsSpan(OwedBy(c, stride), tasks, StrideOf(c, stride), |tasks|);
  }

  lemma {:induction false} FreshProducersLive(tasks: seq<Producer>, n: nat)
    requires n <= |tasks|
    requires forall p :: 0 <= p < n ==> tasks[p].phase == Running
    ensures Total(Live, tasks, n) == n
  {
    if n > 0 {
      FreshProducersLive(tasks, n - 1);
    }
  }

  lemma InitialOrder(c: Config)
    ensures KeepsOrder(c, [], [], EMPTY)
  {
    forall shard: nat
      ensures ShardInOrder(c, [], [], EMPTY, shard)
    {
      assert BuffersOf([], shard) + BuffersOf([], shard) == [];
    }
  }

  lemma InitialOwed(c: Config, s: System, producerThreads: nat, consumers: nat)
    requires producerThreads > 0 && s == Initial(c, producerThreads, consumers)
    ensures AllOwed(c, s)
  {
    if |s.producers| > 0 {
      FreshProducersOwe(c, s.producers, |s.producers|);
      StridesCoverQueries(c, 0, |s.producers|);
    }
  }

  lemma InitialHolders(s: System, consumers: nat)
    requires s.queue.busyShards == {} && s.consumers == seq(consumers, _ => Idle)
    requires s.claimed == [] && s.delivered == multiset{}
    ensures HoldersMatch(s) && ClaimsAccounted(s) && DoneLeavesNothing(s)
  {
    GatherEmpty(HeldBy, s.consumers, |s.consumers|);
  }

  lemma InitialInv(c: Config, producerThreads: nat, consumers: nat)
    requires c.Valid() && producerThreads > 0
    ensures Inv(c, Initial(c, producerThreads, consumers))
  {
    var s := Initial(c, producerThreads, consumers);
    EmptyBuffersInv(c);
    FreshProducersLive(s.producers, |s.producers|);
    InitialOwed(c, s, producerThreads, consumers);
    InitialHolders(s, consumers);
    InitialOrder(c);
  }

  // Producers ------------------------------------------------------------------------------------

  lemma LiveProducersAreCounted(s: System, p: nat)
    requires LiveCounted(s) && p < |s.producers| && s.producers[p].phase != Settled
    ensures s.queue.activeProducers > 0 && !s.queue.sourceExhausted
  {
    TotalAtLeast(Live, s.producers, |s.producers|, p);
  }

  lemma SameConsumers(s: System, r: System)
    requires HoldersMatch(s)
    requires s.consumers == r.consumers && s.queue.busyShards == r.queue.busyShards
    ensures HoldersMatch(r)
  {
    assert forall k, shard :: Holds(s, k, shard) == Holds(r, k, shard);
  }

  lemma OneProducerOwes(c: Config, s: System, r: System, p: nat)
    requires p < |s.producers| == |r.producers| && r.producers == s.producers[p := r.producers[p]]
    ensures OwedTotal(c, r) + OwedBy(c, |s.producers|)(s.producers[p])
         == OwedTotal(c, s) + OwedBy(c, |s.producers|)(r.producers[p])
  {
    GatherUpdate(OwedBy(c, |s.producers|), s.producers, |s.producers|, p, r.producers[p]);
  }

  lemma LiveProducersChange(s: System, r: System, p: nat)
    requires p < |s.producers| == |r.producers| && r.producers == s.producers[p := r.producers[p]]
    ensures Total(Live, r.producers, |r.producers|) + Live(s.producers[p])
         == Total(Live, s.producers, |s.producers|) + Live(r.producers[p])
  {
    TotalUpdate(Live, s.producers, |s.producers|, p, r.producers[p]);
  }

  lemma OtherTasksKeep(c: Config, s: System, r: System, p: nat)
    requires TasksInv(c, s) && p < |s.producers| == |r.producers|
    requires r.producers == s.producers[p := r.producers[p]]
    requires s.queue.stopRequested ==> r.queue.stopRequested
    requires TaskInv(c, r, p)
    ensures TasksInv(c, r)
  {
    forall i: nat | i < |r.producers|
      ensures TaskInv(c, r, i)
    {
      assert TaskInv(c, s, i);
    }
  }

  /** What leaves a task's pending targets is no longer owed. */
  lemma QueuedIsNoLongerOwed(c: Config, stride: nat, task: Producer, end: nat)
    requires stride > 0 && task.position <= end <= |task.pending|
    ensures multiset(Owed(c, stride, task))
         == multiset(task.pending[task.position..end]) + multiset(Owed(c, stride, task.(position := end)))
  {
    var later := SourceTargets(task.source) + StrideTargets(c, task.nextQuery, stride);
    assert task.pending[task.position..] == task.pending[task.position..end] + task.pending[end..];
    assert Owed(c, stride, task) == task.pending[task.position..end] + (task.pending[end..] + later);
    assert Owed(c, stride, task.(position := end)) == task.pending[end..] + later;
  }

  lemma ClearedPendingOwes(c: Config, stride: nat, task: Producer)
    requires stride > 0 && task.position == |task.pending|
    ensures Owed(c, stride, task.(pending := [], position := 0)) == Owed(c, stride, task)
  {
    assert task.pending[task.position..] == [];
  }

  lemma QueuePassOwes(c: Config, s: System, p: nat)
    requires p < |s.producers| && s.producers[p].position <= |s.producers[p].pending|
    requires AllOwed(c, s)
    ensures AllOwed(c, QueuePass(c, s, p))
  {
    if !s.queue.stopRequested {
      var r := QueuePass(c, s, p);
      var task, stride := s.producers[p], |s.producers|;
      var end := QueueEnd(c, s.queue, task.pending, task.position);
      var moved := multiset(task.pending[task.position..end]);
      QueuedIsNoLongerOwed(c, stride, task, end);
      if end == |task.pending| {
        ClearedPendingOwes(c, stride, task.(position := end));
      }
      OneProducerOwes(c, s, r, p);
      assert multiset(Owed(c, stride, task)) == moved + multiset(Owed(c, stride, r.producers[p]));
      MoveOwed(OwedTotal(c, s), OwedTotal(c, r), moved, multiset(Owed(c, stride, r.producers[p])));
      MovedIsQueued(s.history, task.pending, task.position, end, OwedTotal(c, s), OwedTotal(c, r));
    }
  }

  lemma MovedIsQueued(history: seq<Target>, pending: seq<Target>, from: nat, to: nat, before: multiset<Target>, after: multiset<Target>)
    requires from <= to <= |pending| && before == multiset(pending[from..to]) + after
    ensures multiset(history + pending[from..to]) + after == multiset(history) + before
  {
    assert multiset(history + pending[from..to]) == multiset(history) + multiset(pending[from..to]);
  }

  lemma MoveOwed(before: multiset<Target>, after: multiset<Target>, moved: multiset<Target>, rest: multiset<Target>)
    requires after + (moved + rest) == before + rest
    ensures before == moved + after
  {
    forall t
      ensures before[t] == (moved + after)[t]
    {
      assert (after + (moved + rest))[t] == (before + rest)[t];
    }
  }

  lemma QueuePassOrdered(c: Config, s: System, p: nat)
    requires p < |s.producers| && s.producers[p].position <= |s.producers[p].pending|
    requires c.FinalizeReorders() && Ordered(c, s)
    ensures Ordered(c, QueuePass(c, s, p))
  {
    if !s.queue.stopRequested {
      var task := s.producers[p];
      var end := QueueEnd(c, s.queue, task.pending, task.position);
      QueueAllKeepsOrder(c, s.history, s.claimed, s.queue.buffers, task.pending, task.position, end);
      var queued := QueueAll(c, s.queue.buffers, task.pending, task.position, end);
      FlushOldestKeepsOrder(c, s.history + task.pending[task.position..end], s.claimed, queued);
    }
  }

  lemma QueuePassTasks(c: Config, s: System, p: nat)
    requires p < |s.producers| && s.producers[p].phase == Running && TasksInv(c, s)
    requires s.producers[p].position <= |s.producers[p].pending|
    ensures TasksInv(c, QueuePass(c, s, p))
  {
    OtherTasksKeep(c, s, QueuePass(c, s, p), p);
  }

  lemma NobodyDone(s: System)
    requires DoneLeavesNothing(s) && !s.queue.sourceExhausted && !s.queue.stopRequested && !s.broken
    ensures forall k: nat :: k < |s.consumers| ==> !HasEnded(s, k)
  {
  }

  lemma StillNobodyDone(s: System, r: System)
    requires DoneLeavesNothing(s) && !s.queue.sourceExhausted
    requires r.consumers == s.consumers && r.broken == s.broken
    requires s.queue.stopRequested ==> r.queue.stopRequested
    ensures DoneLeavesNothing(r)
  {
    if !s.queue.stopRequested && !s.broken {
      NobodyDone(s);
      assert forall k: nat :: k < |s.consumers| ==> HasEnded(r, k) == HasEnded(s, k);
    }
  }

  lemma QueuePassKeepsInv(c: Config, s: System, p: nat)
    requires c.Valid() && Inv(c, s) && Enabled(s, Advance(p))
    requires s.producers[p].position < |s.producers[p].pending|
    ensures Inv(c, QueuePass(c, s, p))
  {
    var r, task := QueuePass(c, s, p), s.producers[p];
    LiveProducersAreCounted(s, p);
    QueueTargetsKeepsInv(c, s.queue, task.pending, task.position, p);
    SameConsumers(s, r);
    LiveProducersChange(s, r, p);
    QueuePassTasks(c, s, p);
    QueuePassOwes(c, s, p);
    QueuePassOrdered(c, s, p);
    StillNobodyDone(s, r);
  }

  /** Fetching a query, a row or the end of a query changes nothing that is owed. */
  lemma SourcePassOwes(c: Config, s: System, p: nat)
    requires p < |s.producers| && s.producers[p].position == |s.producers[p].pending|
    ensures var r := SourcePass(c, s, p);
            && Owed(c, |s.producers|, r.producers[p]) == Owed(c, |s.producers|, s.producers[p])
            && (r.producers[p].phase != s.producers[p].phase && !s.queue.stopRequested ==>
                  Owed(c, |s.producers|, r.producers[p]) == [])
            && r.producers[p].position <= |r.producers[p].pending|
  {
    var task, stride := s.producers[p], |s.producers|;
    assert task.pending[task.position..] == [];
    match task.source {
      case NoQuery =>
        if task.nextQuery < |c.queries| {
          var rows, later := RowTargets(c.queries[task.nextQuery]), StrideTargets(c, task.nextQuery + stride, stride);
          assert [] + [] + (rows + later) == [] + rows + later;
        }
      case Rows(left) =>
        if left != [] {
          var later := StrideTargets(c, task.nextQuery, stride);
          assert left[0][0..] == left[0];
          assert [] + (left[0] + RowTargets(left[1..])) + later == left[0] + RowTargets(left[1..]) + later;
        }
    }
  }

  /** A running task that goes on owing the same changes nothing else. */
  lemma TaskChangeKeepsInv(c: Config, s: System, r: System, p: nat)
    requires Inv(c, s) && p < |s.producers| == |r.producers|
    requires r.producers == s.producers[p := r.producers[p]] && r == s.(producers := r.producers)
    requires s.producers[p].phase == Running && r.producers[p].phase != Settled && TaskInv(c, r, p)
    requires Owed(c, |s.producers|, r.producers[p]) == Owed(c, |s.producers|, s.producers[p])
    ensures Inv(c, r)
  {
    LiveProducersAreCounted(s, p);
    SameConsumers(s, r);
    LiveProducersChange(s, r, p);
    OtherTasksKeep(c, s, r, p);
    OneProducerOwes(c, s, r, p);
    CancelOwed(OwedTotal(c, s), OwedTotal(c, r), OwedBy(c, |s.producers|)(s.producers[p]));
    StillNobodyDone(s, r);
  }

  lemma SourcePassKeepsInv(c: Config, s: System, p: nat)
    requires Inv(c, s) && Enabled(s, Advance(p))
    requires s.producers[p].position >= |s.producers[p].pending|
    ensures Inv(c, SourcePass(c, s, p))
  {
    assert TaskInv(c, s, p);
    SourcePassOwes(c, s, p);
    TaskChangeKeepsInv(c, s, SourcePass(c, s, p), p);
  }

  lemma CancelOwed(before: multiset<Target>, after: multiset<Target>, same: multiset<Target>)
    requires after + same == before + same
    ensures before == after
  {
    MoveOwed(before, after, multiset{}, same);
    assert multiset{} + after == after;
  }

  /** A change of phase alone leaves everything owed as it is. */
  lemma PhaseChange(c: Config, s: System, r: System, p: nat, phase: Phase)
    requires p < |s.producers| && r.producers == WithPhase(s, p, phase) && TasksInv(c, s)
    requires s.queue.stopRequested ==> r.queue.stopRequested
    requires r.queue.stopRequested || s.producers[p].phase != Running
    ensures OwedTotal(c, r) == OwedTotal(c, s)
    ensures TasksInv(c, r)
    ensures Total(Live, r.producers, |r.producers|) + Live(s.producers[p])
         == Total(Live, s.producers, |s.producers|) + (if phase == Settled then 0 else 1)
  {
    assert TaskInv(c, s, p);
    LiveProducersChange(s, r, p);
    OneProducerOwes(c, s, r, p);
    assert Owed(c, |s.producers|, r.producers[p]) == Owed(c, |s.producers|, s.producers[p]);
    CancelOwed(OwedTotal(c, s), OwedTotal(c, r), OwedBy(c, |s.producers|)(s.producers[p]));
    OtherTasksKeep(c, s, r, p);
  }

  lemma SettleKeepsInv(c: Config, s: System, p: nat, order: seq<nat>)
    requires c.Valid() && Inv(c, s) && Enabled(s, Settle(p, order))
    ensures Inv(c, Next(c, s, Settle(p, order)))
  {
    var r := Next(c, s, Settle(p, order));
    LiveProducersAreCounted(s, p);
    ProducerFinishedKeepsInv(c, s.queue, false, order);
    PhaseChange(c, s, r, p, Settled);
    SameConsumers(s, r);
    if !s.queue.stopRequested {
      FlushInOrderKeepsOrder(c, s.history, s.claimed, s.queue.buffers, order);
    }
    StillNobodyDone(s, r);
  }

  /** Once stopped, only the bookkeeping of busy shards and live producers is left to keep. */
  lemma StoppedInv(c: Config, s: System, r: System)
    requires Inv(c, s)
    requires r.queue.stopRequested && QueueInv(c, r.queue) && HoldersMatch(r) && LiveCounted(r) && TasksInv(c, r)
    requires r.consumers == s.consumers && r.claimed == s.claimed && r.delivered == s.delivered && r.broken == s.broken
    ensures Inv(c, r)
  {
  }

  /** A producer stops the scan and stops running. */
  lemma LeavingKeepsInv(c: Config, s: System, p: nat, queue: Queue, phase: Phase)
    requires Inv(c, s) && p < |s.producers| && s.producers[p].phase != Settled && phase != Running
    requires queue.stopRequested && queue.busyShards == s.queue.busyShards && QueueInv(c, queue)
    requires queue.activeProducers == s.queue.activeProducers - (if phase == Settled then 1 else 0)
    requires queue.sourceExhausted == (queue.activeProducers == 0)
    ensures Inv(c, s.(queue := queue, producers := WithPhase(s, p, phase)))
  {
    var r := s.(queue := queue, producers := WithPhase(s, p, phase));
    PhaseChange(c, s, r, p, phase);
    SameConsumers(s, r);
    StoppedInv(c, s, r);
  }

  lemma AbandonKeepsInv(c: Config, s: System, p: nat, order: seq<nat>)
    requires c.Valid() && Inv(c, s) && Enabled(s, Abandon(p, order))
    ensures Inv(c, Next(c, s, Abandon(p, order)))
  {
    AbandonedQueue(c, s.queue, order);
    LeavingKeepsInv(c, s, p, ProducerFinished(c, s.queue, true, order), Settled);
  }

  lemma AbandonedQueue(c: Config, q: Queue, order: seq<nat>)
    requires QueueInv(c, q) && q.activeProducers > 0
    ensures QueueInv(c, ProducerFinished(c, q, true, order))
  {
    EmptyBuffersInv(c);
  }

  lemma StopKeepsInv(c: Config, s: System, p: nat, queue: Queue)
    requires Inv(c, s) && p < |s.producers| && s.producers[p].phase != Settled
    requires queue == RequestStop(s.queue) || exists error :: queue == Fail(s.queue, error)
    ensures Inv(c, s.(queue := queue, producers := WithPhase(s, p, Finishing)))
  {
    LeavingKeepsInv(c, s, p, queue, Finishing);
  }

  lemma CancelKeepsInv(c: Config, s: System)
    requires Inv(c, s)
    ensures Inv(c, s.(queue := RequestStop(s.queue)))
  {
    var r := s.(queue := RequestStop(s.queue));
    SameConsumers(s, r);
    forall p: nat | p < |r.producers|
      ensures TaskInv(c, r, p)
    {
      assert TaskInv(c, s, p);
    }
  }

  // Consumers ------------------------------------------------------------------------------------

  lemma OneConsumerHolds(s: System, k: nat, consumer: Consumer)
    requires k < |s.consumers|
    ensures Gather(HeldBy, s.consumers[k := consumer], |s.consumers|) + HeldBy(s.consumers[k])
         == Gather(HeldBy, s.consumers, |s.consumers|) + HeldBy(consumer)
  {
    GatherUpdate(HeldBy, s.consumers, |s.consumers|, k, consumer);
  }

  lemma SameTasks(c: Config, s: System, r: System)
    requires TasksInv(c, s) && r.producers == s.producers && r.queue.stopRequested == s.queue.stopRequested
    ensures TasksInv(c, r)
  {
    forall p: nat | p < |r.producers|
      ensures TaskInv(c, r, p)
    {
      assert TaskInv(c, s, p);
    }
  }

  /** Only a free shard is handed out. */
  lemma TakeHolders(s: System, r: System, k: nat, buffer: DecodeBuffer)
    requires HoldersMatch(s) && k < |s.consumers| && !s.consumers[k].Holding?
    requires buffer.shardIndex !in s.queue.busyShards
    requires r.consumers == s.consumers[k := Holding(buffer)]
    requires r.queue.busyShards == s.queue.busyShards + {buffer.shardIndex}
    ensures HoldersMatch(r)
  {
    assert Holds(r, k, buffer.shardIndex);
    assert forall j, shard :: Holds(r, j, shard) ==> (j == k && shard == buffer.shardIndex) || (j != k && Holds(s, j, shard));
    forall shard | shard in r.queue.busyShards
      ensures exists j :: Holds(r, j, shard)
    {
      if shard != buffer.shardIndex {
        var j :| Holds(s, j, shard);
        assert Holds(r, j, shard);
      }
    }
  }

  lemma ReleaseHolders(s: System, r: System, k: nat, after: Consumer)
    requires HoldersMatch(s) && k < |s.consumers| && s.consumers[k].Holding? && !after.Holding?
    requires r.consumers == s.consumers[k := after]
    requires r.queue.busyShards == s.queue.busyShards - {s.consumers[k].buffer.shardIndex}
    ensures HoldersMatch(r)
  {
    var freed := s.consumers[k].buffer.shardIndex;
    assert Holds(s, k, freed);
    assert forall j, shard :: Holds(r, j, shard) ==> j != k && Holds(s, j, shard);
    forall shard | shard in r.queue.busyShards
      ensures exists j :: Holds(r, j, shard)
    {
      var j :| Holds(s, j, shard);
      assert Holds(r, j, shard);
    }
  }

  lemma ClaimedKeepsInv(c: Config, s: System, k: nat)
    requires Inv(c, s) && Enabled(s, Claim(k)) && ClaimBuffer(s.queue).1.Claimed?
    ensures Inv(c, ClaimStep(s, k))
  {
    var (queue, result) := ClaimBuffer(s.queue);
    ClaimKeepsInv(c, s.queue);
    if !s.queue.stopRequested {
      ClaimKeepsOrder(c, s.history, s.claimed, s.queue);
    }
    TakenKeepsInv(c, s, k, queue, result.buffer);
  }

  /** A consumer takes a buffer of a free shard. */
  lemma TakenKeepsInv(c: Config, s: System, k: nat, queue: Queue, buffer: DecodeBuffer)
    requires Inv(c, s) && k < |s.consumers| && s.consumers[k].Idle?
    requires QueueInv(c, queue) && buffer.shardIndex !in s.queue.busyShards
    requires queue.busyShards == s.queue.busyShards + {buffer.shardIndex}
    requires queue.stopRequested == s.queue.stopRequested && queue.activeProducers == s.queue.activeProducers
    requires queue.sourceExhausted == s.queue.sourceExhausted && BufferOfShard(c, buffer)
    requires !s.queue.stopRequested ==> KeepsOrder(c, s.history, s.claimed + [buffer], queue.buffers)
    ensures Inv(c, s.(queue := queue, consumers := s.consumers[k := Holding(buffer)], claimed := s.claimed + [buffer]))
  {
    var r := s.(queue := queue, consumers := s.consumers[k := Holding(buffer)], claimed := s.claimed + [buffer]);
    TakeHolders(s, r, k, buffer);
    SameTasks(c, s, r);
    ClaimAccounted(s, r, k, buffer);
    NotDone(s, r, k);
  }

  lemma ClaimAccounted(s: System, r: System, k: nat, buffer: DecodeBuffer)
    requires ClaimsAccounted(s) && k < |s.consumers| && !s.consumers[k].Holding?
    requires r.consumers == s.consumers[k := Holding(buffer)] && r.claimed == s.claimed + [buffer]
    requires r.delivered == s.delivered && r.broken == s.broken
    ensures ClaimsAccounted(r)
  {
    OneConsumerHolds(s, k, Holding(buffer));
    var before, after := Gather(HeldBy, s.consumers, |s.consumers|), Gather(HeldBy, r.consumers, |r.consumers|);
    assert after + multiset{} == after;
    assert after == before + multiset{buffer};
    assert s.delivered + (before + multiset{buffer}) == (s.delivered + before) + multiset{buffer};
  }

  /** A consumer sees FINISHED although buffers of busy shards are still ready: their holders remain. */
  lemma FinishedKeepsInv(c: Config, s: System, k: nat, end: Consumer)
    requires Inv(c, s) && Enabled(s, Claim(k))
    requires Ended(end)
    requires ClaimBuffer(s.queue).1.Finished? || ClaimBuffer(s.queue).1.Failed?
    ensures Inv(c, s.(consumers := s.consumers[k := end]))
  {
    var r := s.(consumers := s.consumers[k := end]);
    IdleHolders(s, r, k, end);
    SameTasks(c, s, r);
    IdleAccounted(s, r, k, end);
    LeavesNothing(s, r, k, end);
  }

  lemma LeavesNothing(s: System, r: System, k: nat, end: Consumer)
    requires HoldersMatch(s) && k < |s.consumers| && s.consumers[k].Idle? && Ended(end)
    requires r == s.(consumers := s.consumers[k := end]) && (s.queue.error.Some? ==> s.queue.stopRequested)
    requires ClaimBuffer(s.queue).1.Finished? || ClaimBuffer(s.queue).1.Failed?
    ensures DoneLeavesNothing(r)
  {
    if !s.queue.stopRequested && s.queue.buffers.readyBuffers != [] {
      var shard := s.queue.buffers.readyBuffers[0].shardIndex;
      assert shard in s.queue.busyShards;
      var j :| Holds(s, j, shard);
      assert !HasEnded(r, j);
    }
  }

  lemma IdleHolders(s: System, r: System, k: nat, end: Consumer)
    requires HoldersMatch(s) && k < |s.consumers| && !s.consumers[k].Holding? && Ended(end)
    requires r.queue == s.queue && r.consumers == s.consumers[k := end]
    ensures HoldersMatch(r)
  {
    assert forall j, shard :: Holds(r, j, shard) == Holds(s, j, shard);
  }

  lemma IdleAccounted(s: System, r: System, k: nat, end: Consumer)
    requires ClaimsAccounted(s) && k < |s.consumers| && !s.consumers[k].Holding? && Ended(end)
    requires r == s.(consumers := s.consumers[k := end])
    ensures ClaimsAccounted(r)
  {
    OneConsumerHolds(s, k, end);
    var before, after := Gather(HeldBy, s.consumers, |s.consumers|), Gather(HeldBy, r.consumers, |r.consumers|);
    assert after + multiset{} == after && before + multiset{} == before;
  }

  lemma DeliverKeepsInv(c: Config, s: System, k: nat)
    requires Inv(c, s) && Enabled(s, Deliver(k))
    ensures Inv(c, Next(c, s, Deliver(k)))
  {
    var r := Next(c, s, Deliver(k));
    ReleaseHolders(s, r, k, Idle);
    SameTasks(c, s, r);
    DeliverAccounted(s, r, k);
    NotDone(s, r, k);
  }

  /** A consumer that goes on working may still take what is ready. */
  lemma NotDone(s: System, r: System, k: nat)
    requires DoneLeavesNothing(s) && k < |s.consumers| == |r.consumers|
    requires r.consumers == s.consumers[k := r.consumers[k]] && !Ended(r.consumers[k])
    requires r.queue.stopRequested == s.queue.stopRequested && r.queue.sourceExhausted == s.queue.sourceExhausted
    requires r.broken == s.broken
    ensures DoneLeavesNothing(r)
  {
    assert !HasEnded(r, k);
    assert forall j: nat :: j < |s.consumers| && HasEnded(r, j) ==> HasEnded(s, j);
  }

  lemma DeliverAccounted(s: System, r: System, k: nat)
    requires ClaimsAccounted(s) && k < |s.consumers| && s.consumers[k].Holding?
    requires r.consumers == s.consumers[k := Idle] && r.claimed == s.claimed && r.broken == s.broken
    requires r.delivered == s.delivered + multiset{s.consumers[k].buffer}
    ensures ClaimsAccounted(r)
  {
    OneConsumerHolds(s, k, Idle);
    var one := multiset{s.consumers[k].buffer};
    var before, after := Gather(HeldBy, s.consumers, |s.consumers|), Gather(HeldBy, r.consumers, |r.consumers|);
    assert before + multiset{} == before;
    assert after + one == before;
    assert s.delivered + (after + one) == (s.delivered + one) + after;
  }

  lemma DropKeepsInv(c: Config, s: System, k: nat)
    requires Inv(c, s) && Enabled(s, Drop(k))
    ensures Inv(c, Next(c, s, Drop(k)))
  {
    var r := Next(c, s, Drop(k));
    ReleaseHolders(s, r, k, Dropped);
    SameTasks(c, s, r);
  }

  // Every step, every run ----------------------------------------------------------------------------

  lemma NoticeKeepsInv(c: Config, s: System, p: nat)
    requires Inv(c, s) && Enabled(s, Notice(p))
    ensures Inv(c, Next(c, s, Notice(p)))
  {
    StopKeepsInv(c, s, p, RequestStop(s.queue));
  }

  lemma BreakKeepsInv(c: Config, s: System, p: nat, error: nat)
    requires Inv(c, s) && Enabled(s, Break(p, error))
    ensures Inv(c, Next(c, s, Break(p, error)))
  {
    StopKeepsInv(c, s, p, Fail(s.queue, error));
  }

  lemma CancelledKeepsInv(c: Config, s: System)
    requires Inv(c, s)
    ensures Inv(c, Next(c, s, Cancel))
  {
    CancelKeepsInv(c, s);
  }

  lemma AdvanceKeepsInv(c: Config, s: System, p: nat)
    requires c.Valid() && Inv(c, s) && Enabled(s, Advance(p))
    ensures Inv(c, Next(c, s, Advance(p)))
  {
    assert TaskInv(c, s, p);
    if s.producers[p].position < |s.producers[p].pending| {
      QueuePassKeepsInv(c, s, p);
    } else {
      SourcePassKeepsInv(c, s, p);
    }
  }

  lemma ClaimStepKeepsInv(c: Config, s: System, k: nat)
    requires Inv(c, s) && Enabled(s, Claim(k))
    ensures Inv(c, Next(c, s, Claim(k)))
  {
    match ClaimBuffer(s.queue).1 {
      case Claimed(_) => ClaimedKeepsInv(c, s, k);
      case ClaimBlocked =>
      case Finished => FinishedKeepsInv(c, s, k, Done);
      case Failed(error) => FinishedKeepsInv(c, s, k, Threw(error));
    }
  }

  lemma StepKeepsInv(c: Config, s: System, step: Step)
    requires c.Valid() && Inv(c, s) && Enabled(s, step)
    ensures Inv(c, Next(c, s, step))
  {
    match step {
      case Advance(p) => AdvanceKeepsInv(c, s, p);
      case Settle(p, order) => SettleKeepsInv(c, s, p, order);
      case Claim(k) => ClaimStepKeepsInv(c, s, k);
      case Deliver(k) => DeliverKeepsInv(c, s, k);
      case Notice(p) => NoticeKeepsInv(c, s, p);
      case Break(p, error) => BreakKeepsInv(c, s, p, error);
      case Abandon(p, order) => AbandonKeepsInv(c, s, p, order);
      case Drop(k) => DropKeepsInv(c, s, k);
      case Cancel => CancelledKeepsInv(c, s);
    }
  }

  /** Every state of every run has the invariant, whatever is interleaved, fails or is cancelled. */
  lemma {:induction false} RunKeepsInv(
    c: Config, states: seq<System>, steps: seq<Step>, producerThreads: nat, consumers: nat, i: nat)
    requires c.Valid() && producerThreads > 0
    requires Run(c, states, steps, producerThreads, consumers) && i < |states|
    ensures Inv(c, states[i])
  {
    if i == 0 {
      InitialInv(c, producerThreads, consumers);
    } else {
      RunKeepsInv(c, states, steps, producerThreads, consumers, i - 1);
      assert StepAt(c, states, steps, i - 1);
      StepKeepsInv(c, states[i - 1], steps[i - 1]);
    }
  }
}
