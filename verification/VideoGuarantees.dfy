/** What a video scan guarantees over a whole run: the queue stays bounded, every unfinished state
    has a step that makes progress, progress cannot go on forever, and a scan that was not stopped
    ends with every target delivered exactly once and in queue order. */
module VideoGuarantees {
  import opened Collections
  import opened VideoBuffers
  import opened VideoQueue
  import opened VideoOrder
  import opened VideoRuns
  import opened VideoInvariant
  import opened Sums

  /** Every scan thread has ended. */
  ghost predicate Complete(s: System) {
    forall k: nat :: k < |s.consumers| ==> HasEnded(s, k)
  }

  ghost predicate Undisturbed(s: System) {
    !s.queue.stopRequested && !s.broken && s.consumers != []
  }

  /** The pending count is exact and bounded, the LRU list enumerates the partial buffers, and no
      shard is held twice, in every state of every run. */
  lemma QueueIsBounded(
    c: Config, states: seq<System>, steps: seq<Step>, producerThreads: nat, consumers: nat, i: nat)
    requires c.Valid() && producerThreads > 0
    requires Run(c, states, steps, producerThreads, consumers) && i < |states|
    ensures var b := states[i].queue.buffers;
            && b.pendingTargetCount == PartialSizes(b.partialBuffers, b.partialLru) + ReadySizes(b.readyBuffers)
            && b.pendingTargetCount <= c.maxPendingTargets
            && LruMatches(b)
            && (forall shard :: shard in b.partialBuffers ==> 0 < |b.partialBuffers[shard]|)
    ensures forall j, k, shard :: Holds(states[i], j, shard) && Holds(states[i], k, shard) ==> j == k
  {
    RunKeepsInv(c, states, steps, producerThreads, consumers, i);
    var b := states[i].queue.buffers;
    forall shard | shard in b.partialBuffers
      ensures 0 < |b.partialBuffers[shard]|
    {
      assert PartialOfShard(c, b, shard);
    }
  }

  lemma AllSettledOweNothing(c: Config, s: System)
    requires TasksInv(c, s) && LiveCounted(s) && !s.queue.stopRequested && s.queue.activeProducers == 0
    ensures OwedTotal(c, s) == multiset{}
  {
    forall p: nat | p < |s.producers|
      ensures OwedBy(c, |s.producers|)(s.producers[p]) == multiset{}
    {
      assert TaskInv(c, s, p);
      TotalAtLeast(Live, s.producers, |s.producers|, p);
    }
    GatherEmpty(OwedBy(c, |s.producers|), s.producers, |s.producers|);
  }

  lemma NobodyHolds(s: System)
    requires Complete(s)
    ensures Gather(HeldBy, s.consumers, |s.consumers|) == multiset{}
  {
    forall k: nat | k < |s.consumers|
      ensures HeldBy(s.consumers[k]) == multiset{}
    {
      assert HasEnded(s, k);
    }
    GatherEmpty(HeldBy, s.consumers, |s.consumers|);
  }

  /** Once everyone is done, no buffer is left and the delivered ones hold exactly the targets of all
      queries, each shard's in queue order. */
  lemma CompleteMeansDelivered(c: Config, s: System)
    requires Inv(c, s) && Undisturbed(s) && Complete(s)
    ensures s.queue.buffers.readyBuffers == [] && s.queue.buffers.partialBuffers == map[]
    ensures s.queue.activeProducers == 0
    ensures s.delivered == multiset(s.claimed)
    ensures multiset(TargetsOf(s.claimed)) == multiset(TargetsFrom(c, 0))
    ensures KeepsOrder(c, s.history, s.claimed, s.queue.buffers)
  {
    assert HasEnded(s, 0);
    AllSettledOweNothing(c, s);
    NobodyHolds(s);
    AllClaimed(c, s.history, s.claimed, s.queue.buffers);
  }

  /** No loss and no duplicate, for every run that was not stopped and in which no decode failed. */
  lemma NothingIsLost(c: Config, states: seq<System>, steps: seq<Step>, producerThreads: nat, consumers: nat)
    requires c.Valid() && producerThreads > 0
    requires Run(c, states, steps, producerThreads, consumers)
    requires Undisturbed(states[|steps|]) && Complete(states[|steps|])
    ensures var last := states[|steps|];
            && last.queue.buffers.readyBuffers == [] && last.queue.buffers.partialBuffers == map[]
            && last.delivered == multiset(last.claimed)
            && multiset(TargetsOf(last.claimed)) == multiset(TargetsFrom(c, 0))
            && KeepsOrder(c, last.history, last.claimed, last.queue.buffers)
  {
    RunKeepsInv(c, states, steps, producerThreads, consumers, |steps|);
    CompleteMeansDelivered(c, states[|steps|]);
  }

  // FINISHED before the end --------------------------------------------------------------------------

  const SAME: Target := Target(0.0, 0, 0, 0, 0, 0, 0)

  /** Two targets of one shard, each a full buffer. */
  function OneShard(): Config {
    Config(_ => 0, [[[SAME, SAME]]], 1, 2, b => b)
  }

  const FULL: DecodeBuffer := DecodeBuffer(0, [SAME], [])

  function Ready(buffers: seq<DecodeBuffer>): Buffers {
    Buffers(map[], [], buffers, |buffers|)
  }

  /** The scan with `ready` buffers, an `active` producer and consumers in these states. */
  function Scan(ready: seq<DecodeBuffer>, task: Producer, busy: set<nat>, consumers: seq<Consumer>, history: seq<Target>,
                claimed: seq<DecodeBuffer>): System {
    System(Queue(Ready(ready), if task.phase == Settled then 0 else 1, task.phase == Settled, false, None, busy, []),
           [task], consumers, history, claimed, multiset{}, false)
  }

  /** The producer reads its query, queues both targets and ends; the first consumer claims a buffer. */
  function ScanState(i: nat): System {
    var idle, both := [Idle, Idle], [SAME, SAME];
    match i
    case 0 => Scan([], Producer(Running, [], 0, NoQuery, 0), {}, idle, [], [])
    case 1 => Scan([], Producer(Running, [], 0, Rows([[SAME, SAME]]), 1), {}, idle, [], [])
    case 2 => Scan([], Producer(Running, both, 0, Rows([]), 1), {}, idle, [], [])
    case 3 => Scan([FULL, FULL], Producer(Running, [], 0, Rows([]), 1), {}, idle, both, [])
    case 4 => Scan([FULL, FULL], Producer(Running, [], 0, NoQuery, 1), {}, idle, both, [])
    case 5 => Scan([FULL, FULL], Producer(Finishing, [], 0, NoQuery, 1), {}, idle, both, [])
    case 6 => Scan([FULL, FULL], Producer(Settled, [], 0, NoQuery, 1), {}, idle, both, [])
    case 7 => Scan([FULL], Producer(Settled, [], 0, NoQuery, 1), {0}, [Holding(FULL), Idle], both, [FULL])
    case _ => Scan([FULL], Producer(Settled, [], 0, NoQuery, 1), {0}, [Holding(FULL), Done], both, [FULL])
  }

  function ScanStep(i: nat): Step {
    match i
    case 5 => Settle(0, [])
    case 6 => Claim(0)
    case 7 => Claim(1)
    case _ => Advance(0)
  }

  ghost predicate ScanSteps(i: nat) {
    Enabled(ScanState(i), ScanStep(i)) && ScanState(i + 1) == Next(OneShard(), ScanState(i), ScanStep(i))
  }

  lemma OneIsFull()
    ensures QueueTarget(OneShard(), EMPTY, SAME) == Ready([FULL])
    ensures QueueTarget(OneShard(), Ready([FULL]), SAME) == Ready([FULL, FULL])
  {
    assert [0] == [0] + Without([], 0);
    assert EMPTY.Partial(0) + [SAME] == [SAME] && Ready([FULL]).Partial(0) + [SAME] == [SAME];
    assert map[0 := [SAME]] - {0} == map[];
    assert Without([0], 0) == Without([], 0) == [];
    assert [FULL] + [FULL] == [FULL, FULL];
  }

  lemma BothAreFull()
    ensures QueueAll(OneShard(), EMPTY, [SAME, SAME], 0, 2) == Ready([FULL, FULL])
  {
    var c, both := OneShard(), [SAME, SAME];
    OneIsFull();
    assert QueueAll(c, EMPTY, both, 0, 0) == EMPTY;
    assert QueueAll(c, EMPTY, both, 0, 1) == Ready([FULL]);
  }

  lemma ScanQueues()
    ensures ScanSteps(2)
  {
    BothAreFull();
    var both := [SAME, SAME];
    assert both[0..2] == both && [] + both == both;
    assert QueueEnd(OneShard(), ScanState(2).queue, both, 0) == 2;
  }

  lemma ScanReads()
    ensures ScanSteps(0) && ScanSteps(1) && ScanSteps(3) && ScanSteps(4)
  {
    assert [[SAME, SAME]][1..] == [];
  }

  lemma ScanEnds()
    ensures ScanSteps(5)
  {
  }

  lemma ScanClaims()
    ensures ScanSteps(6) && ScanSteps(7)
  {
    var two, one := [FULL, FULL], [FULL];
    assert FirstClaimable(two, {}) == 0 && two[..0] + two[1..] == one && [] + one == one;
    assert FirstClaimable(one, {0}) == 1;
    assert {} + {0} == {0};
    assert [Idle, Idle][0 := Holding(FULL)] == [Holding(FULL), Idle];
    assert [Holding(FULL), Idle][1 := Done] == [Holding(FULL), Done];
  }

  lemma AllScanSteps(i: nat)
    requires i < 8
    ensures ScanSteps(i)
  {
    if i < 2 || i == 3 || i == 4 {
      ScanReads();
    } else if i == 2 {
      ScanQueues();
    } else if i == 5 {
      ScanEnds();
    } else {
      ScanClaims();
    }
  }

  /** FINISHED alone does not mean that nothing is ready: in this run a consumer is told that the scan has finished
      while a buffer waits for the other consumer, which holds its shard. */
  lemma FinishedWhileReady() returns (states: seq<System>, steps: seq<Step>)
    ensures OneShard().Valid() && Run(OneShard(), states, steps, 1, 2)
    ensures var last := states[|steps|];
            && !last.queue.stopRequested && last.queue.activeProducers == 0
            && |last.consumers| == 2 && last.consumers[1] == Done && last.queue.buffers.readyBuffers != []
  {
    states, steps := seq(9, i requires 0 <= i => ScanState(i)), seq(8, i requires 0 <= i => ScanStep(i));
    assert ScanState(0) == Initial(OneShard(), 1, 2);
    forall i: nat | i < |steps| ensures StepAt(OneShard(), states, steps, i) {
      AllScanSteps(i);
    }
  }

  // What a claim gets ----------------------------------------------------------------------------

  /** Ready buffer i is of a shard that no consumer is decoding. */
  ghost predicate IsFree(s: System, i: nat) {
    i < |s.queue.buffers.readyBuffers| && forall j: nat :: !Holds(s, j, s.queue.buffers.readyBuffers[i].shardIndex)
  }

  ghost predicate IsFirstFree(s: System, i: nat) {
    IsFree(s, i) && forall j: nat :: j < i ==> !IsFree(s, j)
  }

  /** Consumer k has taken ready buffer i, which leaves the others in order and wakes every producer. */
  ghost predicate Takes(s: System, r: System, k: nat, i: nat) {
    var ready := s.queue.buffers.readyBuffers;
    && i < |ready| && k < |r.consumers| && r.consumers[k] == Holding(ready[i])
    && r.queue.buffers.readyBuffers == ready[..i] + ready[i + 1..] && r.queue.blockedProducers == []
  }

  ghost predicate TakesFirstFree(s: System, r: System, k: nat) {
    exists i: nat :: IsFirstFree(s, i) && Takes(s, r, k, i)
  }

  /** There is nothing to take: the consumer ends if the scan is over or stopped, otherwise nothing happens. */
  ghost predicate FindsNothing(s: System, r: System, k: nat) {
    && (forall i: nat :: !IsFree(s, i))
    && if s.queue.sourceExhausted || s.queue.stopRequested then k < |r.consumers| && r.consumers[k] == Done && r.queue == s.queue
       else r == s
  }

  /** Buffers are claimed in the order in which they became ready, except that those of shards being decoded are passed
      over. */
  lemma ClaimsFirstFree(c: Config, s: System, k: nat)
    requires Inv(c, s) && Enabled(s, Claim(k)) && s.queue.error.None?
    ensures TakesFirstFree(s, Next(c, s, Claim(k)), k) || FindsNothing(s, Next(c, s, Claim(k)), k)
  {
    ClaimGets(s, k);
  }

  lemma ClaimGets(s: System, k: nat)
    requires HoldersMatch(s) && k < |s.consumers| && s.queue.error.None?
    ensures TakesFirstFree(s, ClaimStep(s, k), k) || FindsNothing(s, ClaimStep(s, k), k)
  {
    var i := FirstIsFree(s);
    if i < |s.queue.buffers.readyBuffers| {
      TakesFirst(s, k, i);
    } else {
      TakesNothing(s, k);
    }
  }

  lemma FreeMeans(s: System, i: nat)
    requires HoldersMatch(s) && i < |s.queue.buffers.readyBuffers|
    ensures IsFree(s, i) <==> s.queue.buffers.readyBuffers[i].shardIndex !in s.queue.busyShards
  {
    var shard := s.queue.buffers.readyBuffers[i].shardIndex;
    if shard in s.queue.busyShards {
      var h :| Holds(s, h, shard);
    }
  }

  lemma FirstIsFree(s: System) returns (i: nat)
    requires HoldersMatch(s)
    ensures i == FirstClaimable(s.queue.buffers.readyBuffers, s.queue.busyShards)
    ensures if i < |s.queue.buffers.readyBuffers| then IsFirstFree(s, i) else forall j: nat :: !IsFree(s, j)
  {
    i := FirstClaimable(s.queue.buffers.readyBuffers, s.queue.busyShards);
    forall j: nat | j < i ensures !IsFree(s, j) {
      FreeMeans(s, j);
    }
    if i < |s.queue.buffers.readyBuffers| {
      FreeMeans(s, i);
    }
  }

  lemma TakesFirst(s: System, k: nat, i: nat)
    requires k < |s.consumers| && s.queue.error.None? && i < |s.queue.buffers.readyBuffers|
    requires i == FirstClaimable(s.queue.buffers.readyBuffers, s.queue.busyShards)
    ensures Takes(s, ClaimStep(s, k), k, i)
  {
  }

  lemma TakesNothing(s: System, k: nat)
    requires k < |s.consumers| && s.queue.error.None?
    requires FirstClaimable(s.queue.buffers.readyBuffers, s.queue.busyShards) == |s.queue.buffers.readyBuffers|
    ensures var r := ClaimStep(s, k);
            if s.queue.sourceExhausted || s.queue.stopRequested then r.consumers[k] == Done && r.queue == s.queue else r == s
  {
  }

  // Progress -------------------------------------------------------------------------------------

  /** A step that moves the scan forward; a claim that has to wait does not. */
  ghost predicate Productive(s: System, step: Step) {
    && Enabled(s, step)
    && (step.Advance? || step.Settle? || step.Deliver? || (step.Claim? && !ClaimBuffer(s.queue).1.ClaimBlocked?))
  }

  /** An idle consumer can claim whenever the first ready buffer's shard is free. */
  lemma IdleClaims(s: System, k: nat)
    requires k < |s.consumers| && s.consumers[k] == Idle
    requires s.queue.buffers.readyBuffers != [] && s.queue.buffers.readyBuffers[0].shardIndex !in s.queue.busyShards
    ensures Productive(s, Claim(k))
  {
  }

  /** Some ready buffer moves on: its shard's holder delivers, or an idle consumer claims. */
  lemma ReadyMovesOn(s: System, k: nat)
    requires HoldersMatch(s) && k < |s.consumers| && !HasEnded(s, k) && s.queue.buffers.readyBuffers != []
    ensures exists step :: Productive(s, step)
  {
    var shard := s.queue.buffers.readyBuffers[0].shardIndex;
    if shard in s.queue.busyShards {
      var j :| Holds(s, j, shard);
      assert Productive(s, Deliver(j));
    } else if s.consumers[k].Holding? {
      assert Productive(s, Deliver(k));
    } else {
      IdleClaims(s, k);
    }
  }

  /** No deadlock: while some consumer is not done, somebody can make progress. */
  lemma SomeoneCanProceed(c: Config, s: System)
    requires Inv(c, s) && Undisturbed(s) && !Complete(s)
    ensures exists step :: Productive(s, step)
  {
    var k: nat :| k < |s.consumers| && !HasEnded(s, k);
    if s.queue.activeProducers == 0 {
      assert s.consumers[k].Holding? ==> Productive(s, Deliver(k));
      assert s.consumers[k] == Idle ==> Productive(s, Claim(k));
    } else if s.queue.buffers.readyBuffers != [] {
      ReadyMovesOn(s, k);
    } else {
      SomeProducerIsAwake(c, s);
    }
  }

  lemma SomeProducerIsAwake(c: Config, s: System)
    requires Inv(c, s) && !s.queue.stopRequested
    requires s.queue.activeProducers > 0 && s.queue.buffers.readyBuffers == []
    ensures exists step :: Productive(s, step)
  {
    if forall p: nat :: p < |s.producers| ==> Live(s.producers[p]) == 0 {
      TotalZero(Live, s.producers, |s.producers|);
    }
    var p: nat :| p < |s.producers| && Live(s.producers[p]) != 0;
    if s.producers[p].phase == Running {
      assert Productive(s, Advance(p));
    } else {
      assert Productive(s, Settle(p, s.queue.buffers.partialLru));
    }
  }

  // Termination ----------------------------------------------------------------------------------

  /** Passes that a producer still makes over its queries and rows. */
  function StrideWork(c: Config, q: nat, stride: nat): nat
    requires stride > 0
    decreases |c.queries| - q
  {
    if q >= |c.queries| then 0 else |c.queries[q]| + 2 + StrideWork(c, q + stride, stride)
  }

  function Work(c: Config, stride: nat, task: Producer): nat
    requires stride > 0
  {
    match task.phase
    case Settled => 0
    case Finishing => 1
    case Running =>
      2 + (if task.source.NoQuery? then 0 else |task.source.left| + 1) + StrideWork(c, task.nextQuery, stride)
  }

  ghost function WorkOf(c: Config, stride: nat): Producer -> nat {
    task => if stride > 0 then Work(c, stride, task) else 0
  }

  ghost function WorkLeft(c: Config, s: System): nat {
    Total(WorkOf(c, |s.producers|), s.producers, |s.producers|)
  }

  function Busyness(consumer: Consumer): nat {
    match consumer
    case Idle => 1
    case Holding(_) => 2
    case _ => 0
  }

  ghost function Awake(s: System): set<nat> {
    set p: nat | p < |s.producers| && p !in s.queue.blockedProducers
  }

  ghost function Waiting(s: System): nat {
    if s.queue.buffers.pendingTargetCount < 0 then 0 else s.queue.buffers.pendingTargetCount
  }

  /** Lexicographic: passes left, targets to queue, targets to claim, consumers to finish, producers awake. */
  ghost predicate Less(c: Config, r: System, s: System) {
    || WorkLeft(c, r) < WorkLeft(c, s)
    || (WorkLeft(c, r) == WorkLeft(c, s)
        && (|| |OwedTotal(c, r)| < |OwedTotal(c, s)|
            || (|OwedTotal(c, r)| == |OwedTotal(c, s)|
                && (|| Waiting(r) < Waiting(s)
                    || (Waiting(r) == Waiting(s)
                        && (|| Total(Busyness, r.consumers, |r.consumers|) < Total(Busyness, s.consumers, |s.consumers|)
                            || (Total(Busyness, r.consumers, |r.consumers|) == Total(Busyness, s.consumers, |s.consumers|)
                                && |Awake(r)| < |Awake(s)|)))))))
  }

  lemma OneProducerWorks(c: Config, s: System, r: System, p: nat)
    requires p < |s.producers| == |r.producers| && r.producers == s.producers[p := r.producers[p]]
    ensures WorkLeft(c, r) + Work(c, |s.producers|, s.producers[p])
         == WorkLeft(c, s) + Work(c, |s.producers|, r.producers[p])
  {
    TotalUpdate(WorkOf(c, |s.producers|), s.producers, |s.producers|, p, r.producers[p]);
  }

  lemma SourcePassDecreases(c: Config, s: System, p: nat)
    requires Enabled(s, Advance(p))
    ensures WorkLeft(c, SourcePass(c, s, p)) < WorkLeft(c, s)
  {
    OneProducerWorks(c, s, SourcePass(c, s, p), p);
  }

  lemma SettleDecreases(c: Config, s: System, p: nat, order: seq<nat>)
    requires Enabled(s, Settle(p, order))
    ensures Less(c, Next(c, s, Settle(p, order)), s)
  {
    OneProducerWorks(c, s, Next(c, s, Settle(p, order)), p);
  }

  /** A queueing pass either queues a target or puts the producer to sleep. */
  lemma QueuePassDecreases(c: Config, s: System, p: nat)
    requires Enabled(s, Advance(p)) && !s.queue.stopRequested
    requires s.producers[p].position < |s.producers[p].pending|
    ensures Less(c, QueuePass(c, s, p), s)
  {
    var r, task := QueuePass(c, s, p), s.producers[p];
    var end := QueueEnd(c, s.queue, task.pending, task.position);
    OneProducerWorks(c, s, r, p);
    QueuePassTakes(c, s, p);
    if end == task.position {
      SleepersGrow(s, r, p);
      FlushOldestCounts(c, s.queue.buffers);
    }
  }

  lemma QueuePassTakes(c: Config, s: System, p: nat)
    requires p < |s.producers| && s.producers[p].position <= |s.producers[p].pending| && !s.queue.stopRequested
    ensures var task := s.producers[p];
            var end := QueueEnd(c, s.queue, task.pending, task.position);
            |OwedTotal(c, s)| == |OwedTotal(c, QueuePass(c, s, p))| + (end - task.position)
  {
    var r, task, stride := QueuePass(c, s, p), s.producers[p], |s.producers|;
    var end := QueueEnd(c, s.queue, task.pending, task.position);
    var moved := multiset(task.pending[task.position..end]);
    QueuedIsNoLongerOwed(c, stride, task, end);
    if end == |task.pending| {
      ClearedPendingOwes(c, stride, task.(position := end));
    }
    OneProducerOwes(c, s, r, p);
    MoveOwed(OwedTotal(c, s), OwedTotal(c, r), moved, multiset(Owed(c, stride, r.producers[p])));
  }

  lemma SleepersGrow(s: System, r: System, p: nat)
    requires p < |s.producers| == |r.producers| && p !in s.queue.blockedProducers
    requires r.queue.blockedProducers == s.queue.blockedProducers + [p]
    ensures |Awake(r)| < |Awake(s)|
  {
    assert Awake(r) == Awake(s) - {p};
  }

  lemma FlushOldestCounts(c: Config, b: Buffers)
    ensures FlushOldestPartialBuffer(c, b).pendingTargetCount == b.pendingTargetCount
  {
  }

  lemma ConsumerStepDecreases(s: System, k: nat, after: Consumer)
    requires k < |s.consumers| && Busyness(after) < Busyness(s.consumers[k])
    ensures Total(Busyness, s.consumers[k := after], |s.consumers|) < Total(Busyness, s.consumers, |s.consumers|)
  {
    TotalUpdate(Busyness, s.consumers, |s.consumers|, k, after);
  }

  lemma ClaimShrinksPending(c: Config, q: Queue)
    requires BuffersInv(c, q.buffers)
    ensures ClaimBuffer(q).1.Claimed? ==> 0 <= ClaimBuffer(q).0.buffers.pendingTargetCount < q.buffers.pendingTargetCount
  {
    if ClaimBuffer(q).1.Claimed? {
      var i := FirstClaimable(q.buffers.readyBuffers, q.busyShards);
      TakeReadyKeepsInv(c, q.buffers, i);
      assert Counted(TakeReady(q.buffers, i));
    }
  }

  lemma ClaimDecreases(c: Config, s: System, k: nat)
    requires BuffersInv(c, s.queue.buffers) && Productive(s, Claim(k))
    ensures Less(c, Next(c, s, Claim(k)), s)
  {
    if ClaimBuffer(s.queue).1.Claimed? {
      ClaimShrinksPending(c, s.queue);
    } else {
      ConsumerStepDecreases(s, k, ClaimStep(s, k).consumers[k]);
    }
  }

  lemma DeliverDecreases(c: Config, s: System, k: nat)
    requires Enabled(s, Deliver(k))
    ensures Less(c, Next(c, s, Deliver(k)), s)
  {
    ConsumerStepDecreases(s, k, Idle);
  }

  lemma AdvanceDecreases(c: Config, s: System, p: nat)
    requires Enabled(s, Advance(p)) && !s.queue.stopRequested
    ensures Less(c, Next(c, s, Advance(p)), s)
  {
    if s.producers[p].position < |s.producers[p].pending| {
      QueuePassDecreases(c, s, p);
    } else {
      SourcePassDecreases(c, s, p);
    }
  }

  /** Every productive step brings the scan closer to its end. */
  lemma ProductiveDecreases(c: Config, s: System, step: Step)
    requires c.Valid() && Inv(c, s) && Undisturbed(s) && Productive(s, step)
    ensures Less(c, Next(c, s, step), s)
  {
    match step {
      case Advance(p) => AdvanceDecreases(c, s, p);
      case Settle(p, order) => SettleDecreases(c, s, p, order);
      case Claim(k) => ClaimDecreases(c, s, k);
      case Deliver(k) => DeliverDecreases(c, s, k);
    }
  }

  lemma ProductiveStaysUndisturbed(c: Config, s: System, step: Step)
    requires Undisturbed(s) && Productive(s, step)
    ensures Undisturbed(Next(c, s, step))
  {
  }

  /** A schedule that keeps choosing steps that make progress. */
  ghost predicate KeepsGoing(c: Config, pick: System -> Step) {
    forall s :: Inv(c, s) && Undisturbed(s) && !Complete(s) ==> Productive(s, pick(s))
  }

  /** The state a schedule ends in: whatever it interleaves, it ends, and with everything delivered. */
  ghost function Outcome(c: Config, s: System, pick: System -> Step): (r: System)
    requires c.Valid() && Inv(c, s) && Undisturbed(s) && KeepsGoing(c, pick)
    ensures Inv(c, r) && Undisturbed(r) && Complete(r)
    ensures r.delivered == multiset(r.claimed) && multiset(TargetsOf(r.claimed)) == multiset(TargetsFrom(c, 0))
    decreases WorkLeft(c, s), |OwedTotal(c, s)|, Waiting(s), Total(Busyness, s.consumers, |s.consumers|), |Awake(s)|
  {
    if Complete(s) then
      CompleteMeansDelivered(c, s);
      s
    else
      StepKeepsInv(c, s, pick(s));
      ProductiveDecreases(c, s, pick(s));
      ProductiveStaysUndisturbed(c, s, pick(s));
      Outcome(c, Next(c, s, pick(s)), pick)
  }
}
