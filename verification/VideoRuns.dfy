/** Whole runs of the video scan: producer tasks, scan threads and the queue between them.

    A step is one pass of a producer task's loop or one call of a scan thread, so it contains at
    most one locked section, and steps of all tasks interleave freely. A producer sleeps while its
    index is among the blocked producers. `history` lists the targets in the order in which they
    were queued, `claimed` the buffers in claim order; neither influences a step. */
module VideoRuns {
  import opened VideoBuffers
  import opened VideoQueue
  import opened VideoOrder
  import opened Sums

  datatype Phase = Running | Finishing | Settled

  /** The rows of the frame query being read that have not been turned into targets yet. */
  datatype Source = NoQuery | Rows(left: seq<seq<Target>>)

  datatype Producer = Producer(
    phase: Phase,
    pending: seq<Target>,
    position: nat,
    source: Source,
    nextQuery: nat)

  /** A consumer ends when it is told FINISHED, when a producer's error is raised in it, or when its own
      decoding throws. */
  datatype Consumer = Idle | Holding(buffer: DecodeBuffer) | Done | Threw(error: nat) | Dropped

  datatype System = System(
    queue: Queue,
    producers: seq<Producer>,
    consumers: seq<Consumer>,
    history: seq<Target>,
    claimed: seq<DecodeBuffer>,
    delivered: multiset<DecodeBuffer>,
    broken: bool)

  datatype Step =
    | Advance(p: nat)                      // one pass of ExecuteTask's loop
    | Settle(p: nat, order: seq<nat>)      // Finish: the producer leaves the count
    | Claim(k: nat)                        // ClaimBuffer by scan thread k
    | Deliver(k: nat)                      // all rows of the held buffer are out, FinishBuffer
    | Notice(p: nat)                       // the producer sees the stop flag
    | Break(p: nat, error: nat)            // a query or row of the producer throws
    | Abandon(p: nat, order: seq<nat>)     // the task is destroyed before it finished
    | Drop(k: nat)                         // decoding throws: FinishBuffer without the rows
    | Cancel                               // RequestStop from outside

  ghost function Initial(c: Config, producerThreads: nat, consumers: nat): System {
    var queue := InitialQueue(c, producerThreads);
    System(queue,
           seq(queue.activeProducers, p requires 0 <= p => Producer(Running, [], 0, NoQuery, p)),
           seq(consumers, _ => Idle),
           [], [], multiset{}, false)
  }

  // One pass of a producer -------------------------------------------------------------------------

  /** Which of the five things a pass does, and what it leaves in the task. */
  function QueuePass(c: Config, s: System, p: nat): System
    requires p < |s.producers| && s.producers[p].position <= |s.producers[p].pending|
  {
    var task := s.producers[p];
    var (queue, end, result) := QueueTargets(c, s.queue, task.pending, task.position, p);
    var task' :=
      match result
      case Queued => task.(pending := [], position := 0)
      case QueueBlocked => task.(position := end)
      case Stopped => task.(phase := Finishing);
    s.(queue := queue, producers := s.producers[p := task'], history := s.history + task.pending[task.position..end])
  }

  function SourcePass(c: Config, s: System, p: nat): System
    requires p < |s.producers|
  {
    var task := s.producers[p];
    var task' :=
      match task.source
      case NoQuery =>
        if s.queue.stopRequested || task.nextQuery >= |c.queries| then task.(phase := Finishing)
        else task.(source := Rows(c.queries[task.nextQuery]), nextQuery := task.nextQuery + |s.producers|)
      case Rows(left) =>
        if left == [] then task.(source := NoQuery)
        else task.(pending := left[0], position := 0, source := Rows(left[1..]));
    s.(producers := s.producers[p := task'])
  }

  function ProducerPass(c: Config, s: System, p: nat): System
    requires p < |s.producers|
  {
    if s.producers[p].position < |s.producers[p].pending| then QueuePass(c, s, p) else SourcePass(c, s, p)
  }

  ghost predicate Enabled(s: System, step: Step) {
    match step
    case Advance(p) => p < |s.producers| && s.producers[p].phase == Running && p !in s.queue.blockedProducers
    case Settle(p, order) =>
      && p < |s.producers| && s.producers[p].phase == Finishing && s.queue.activeProducers > 0
      && forall shard :: shard in s.queue.buffers.partialBuffers ==> shard in order
    case Claim(k) => k < |s.consumers| && s.consumers[k] == Idle
    case Deliver(k) => k < |s.consumers| && s.consumers[k].Holding?
    case Notice(p) =>
      && p < |s.producers| && s.producers[p].phase == Running && p !in s.queue.blockedProducers
      && s.queue.stopRequested
    case Break(p, _) => p < |s.producers| && s.producers[p].phase == Running && p !in s.queue.blockedProducers
    case Abandon(p, order) => p < |s.producers| && s.producers[p].phase == Running && s.queue.activeProducers > 0
    case Drop(k) => k < |s.consumers| && s.consumers[k].Holding?
    case Cancel => true
  }

  function WithPhase(s: System, p: nat, phase: Phase): seq<Producer>
    requires p < |s.producers|
  {
    s.producers[p := s.producers[p].(phase := phase)]
  }

  function ClaimStep(s: System, k: nat): System
    requires k < |s.consumers|
  {
    var (queue, result) := ClaimBuffer(s.queue);
    match result
    case Claimed(buffer) =>
      s.(queue := queue, consumers := s.consumers[k := Holding(buffer)], claimed := s.claimed + [buffer])
    case ClaimBlocked => s
    case Finished => s.(consumers := s.consumers[k := Done])
    case Failed(error) => s.(consumers := s.consumers[k := Threw(error)])
  }

  ghost function Next(c: Config, s: System, step: Step): System
    requires Enabled(s, step)
  {
    match step
    case Advance(p) => ProducerPass(c, s, p)
    case Settle(p, order) =>
      s.(queue := ProducerFinished(c, s.queue, false, order), producers := WithPhase(s, p, Settled))
    case Claim(k) => ClaimStep(s, k)
    case Deliver(k) =>
      s.(queue := FinishBuffer(s.queue, s.consumers[k].buffer.shardIndex),
         consumers := s.consumers[k := Idle],
         delivered := s.delivered + multiset{s.consumers[k].buffer})
    case Notice(p) => s.(queue := RequestStop(s.queue), producers := WithPhase(s, p, Finishing))
    case Break(p, error) => s.(queue := Fail(s.queue, error), producers := WithPhase(s, p, Finishing))
    case Abandon(p, order) =>
      s.(queue := ProducerFinished(c, s.queue, true, order), producers := WithPhase(s, p, Settled))
    case Drop(k) =>
      s.(queue := FinishBuffer(s.queue, s.consumers[k].buffer.shardIndex), consumers := s.consumers[k := Dropped],
         broken := true)
    case Cancel => s.(queue := RequestStop(s.queue))
  }

  ghost predicate StepAt(c: Config, states: seq<System>, steps: seq<Step>, i: nat)
    requires i < |steps| && |states| == |steps| + 1
  {
    Enabled(states[i], steps[i]) && states[i + 1] == Next(c, states[i], steps[i])
  }

  /** `states` are the states that `steps` lead through, starting from a fresh scan. */
  ghost predicate Run(c: Config, states: seq<System>, steps: seq<Step>, producerThreads: nat, consumers: nat) {
    && |states| == |steps| + 1
    && states[0] == Initial(c, producerThreads, consumers)
    && forall i: nat :: i < |steps| ==> StepAt(c, states, steps, i)
  }

  // What a producer still has to queue ------------------------------------------------------------

  function RowTargets(rows: seq<seq<Target>>): seq<Target> {
    if rows == [] then [] else rows[0] + RowTargets(rows[1..])
  }

  /** The targets of queries q, q + stride, q + 2 * stride, ... */
  function StrideTargets(c: Config, q: nat, stride: nat): seq<Target>
    requires stride > 0
    decreases |c.queries| - q
  {
    if q >= |c.queries| then [] else RowTargets(c.queries[q]) + StrideTargets(c, q + stride, stride)
  }

  /** The targets of all queries from q on. */
  function TargetsFrom(c: Config, q: nat): seq<Target>
    decreases |c.queries| - q
  {
    if q >= |c.queries| then [] else RowTargets(c.queries[q]) + TargetsFrom(c, q + 1)
  }

  function SourceTargets(source: Source): seq<Target> {
    if source.NoQuery? then [] else RowTargets(source.left)
  }

  function Owed(c: Config, stride: nat, task: Producer): seq<Target>
    requires stride > 0
  {
    (if task.position <= |task.pending| then task.pending[task.position..] else [])
    + SourceTargets(task.source) + StrideTargets(c, task.nextQuery, stride)
  }

  ghost function OwedBy(c: Config, stride: nat): Producer -> multiset<Target> {
    task => if stride > 0 then multiset(Owed(c, stride, task)) else multiset{}
  }

  ghost function OwedTotal(c: Config, s: System): multiset<Target> {
    Gather(OwedBy(c, |s.producers|), s.producers, |s.producers|)
  }

  function Live(task: Producer): nat {
    if task.phase == Settled then 0 else 1
  }

  ghost function HeldBy(consumer: Consumer): multiset<DecodeBuffer> {
    if consumer.Holding? then multiset{consumer.buffer} else multiset{}
  }

  // Invariant of a run ------------------------------------------------------------------------------

  ghost predicate Holds(s: System, k: nat, shard: nat) {
    k < |s.consumers| && s.consumers[k].Holding? && s.consumers[k].buffer.shardIndex == shard
  }

  /** The busy shards are those of the held buffers, and no two consumers hold the same shard. */
  ghost predicate HoldersMatch(s: System) {
    && (forall k, shard :: Holds(s, k, shard) ==> shard in s.queue.busyShards)
    && (forall shard :: shard in s.queue.busyShards ==> exists k :: Holds(s, k, shard))
    && (forall j, k, shard :: Holds(s, j, shard) && Holds(s, k, shard) ==> j == k)
  }

  ghost predicate LiveCounted(s: System) {
    && s.queue.activeProducers == Total(Live, s.producers, |s.producers|)
    && s.queue.sourceExhausted == (s.queue.activeProducers == 0)
  }

  ghost predicate TaskInv(c: Config, s: System, p: nat)
    requires p < |s.producers|
  {
    var task := s.producers[p];
    && task.position <= |task.pending|
    && (!s.queue.stopRequested && task.phase != Running ==> Owed(c, |s.producers|, task) == [])
  }

  ghost predicate TasksInv(c: Config, s: System) {
    forall p: nat :: p < |s.producers| ==> TaskInv(c, s, p)
  }

  /** Nothing is lost before it is queued: queued and owed targets make up all targets. */
  ghost predicate AllOwed(c: Config, s: System) {
    !s.queue.stopRequested ==> multiset(s.history) + OwedTotal(c, s) == multiset(TargetsFrom(c, 0))
  }

  /** Nothing is lost or reordered between queueing and claiming. */
  ghost predicate Ordered(c: Config, s: System) {
    && (forall b :: b in s.claimed ==> BufferOfShard(c, b))
    && (!s.queue.stopRequested ==> KeepsOrder(c, s.history, s.claimed, s.queue.buffers))
  }

  ghost predicate ClaimsAccounted(s: System) {
    !s.broken ==> multiset(s.claimed) == s.delivered + Gather(HeldBy, s.consumers, |s.consumers|)
  }

  /** A consumer that has ended may leave ready buffers behind only to another one. */
  ghost predicate DoneLeavesNothing(s: System) {
    !s.queue.stopRequested && !s.broken && (exists k: nat :: k < |s.consumers| && HasEnded(s, k)) ==>
      && s.queue.sourceExhausted
      && (s.queue.buffers.readyBuffers != [] ==> exists k: nat :: k < |s.consumers| && !HasEnded(s, k))
  }

  predicate Ended(consumer: Consumer) {
    consumer.Done? || consumer.Threw? || consumer.Dropped?
  }

  ghost predicate HasEnded(s: System, k: nat)
    requires k < |s.consumers|
  {
    Ended(s.consumers[k])
  }

  ghost predicate Inv(c: Config, s: System) {
    && QueueInv(c, s.queue)
    && HoldersMatch(s)
    && LiveCounted(s)
    && TasksInv(c, s)
    && AllOwed(c, s)
    && Ordered(c, s)
    && ClaimsAccounted(s)
    && DoneLeavesNothing(s)
  }
}
