/** Runs of the codec executor: worker threads and Execute calls, one step per locked section. */
module CodecRuns {
  import opened Collections
  import opened CodecPool
  import opened Sums

  /** Where a worker stands with its job: taken; encoded or not; about to record its error as the first
      one; about to give back its budget; about to publish. */
  datatype Stage = Encoding | Failing | Raising | Releasing | Publishing

  datatype Outcome = NotRun | Done(value: nat) | Failed(error: nat)

  datatype Worker = Idle | Busy(stage: Stage, entry: Entry, reserved: bool, outcome: Outcome)

  /** What an Execute call returns. */
  datatype Return = Interrupted | Error(error: nat) | Results(results: seq<Option<nat>>)

  /** An Execute call after it has queued its jobs. */
  datatype Caller =
    | Waiting(interrupted: bool, discarded: bool)
    | Discarding(interrupted: bool, count: nat)
    | Returned(result: Return)

  /** `settled` counts how often a job was completed or discarded. */
  datatype System = System(pool: Pool, workers: seq<Worker>, callers: seq<Caller>, settled: multiset<(nat, nat)>)

  /** `encode` is what EncodeVideo makes of a job with some number of threads. */
  datatype Config = Config(encode: (nat, nat) -> nat)

  datatype Step =
    | Submit(jobs: seq<nat>, maxWorkers: nat, budget: nat, hostBudget: nat, started: nat)
    | Take(w: nat, capacity: nat)
    | Encode(w: nat, failure: Option<nat>)
    | Exchange(w: nat)
    | Raise(w: nat)
    | Release(w: nat)
    | PublishStep(w: nat)
    | Interrupt(b: nat)
    | Discard(b: nat)
    | Count(b: nat)
    | Finish(b: nat, late: bool)

  predicate IsBusy(s: System, w: nat, stage: Stage) {
    && w < |s.workers| && s.workers[w].Busy? && s.workers[w].stage == stage
    && s.workers[w].entry.batch < |s.pool.batches|
  }

  predicate IsWaiting(s: System, b: nat) {
    b < |s.pool.batches| && b < |s.callers| && s.callers[b].Waiting?
  }

  function AllDone(batch: Batch): bool {
    batch.completed == |batch.results|
  }

  ghost predicate Enabled(s: System, step: Step) {
    match step
    case Submit(jobs, maxWorkers, budget, hostBudget, started) =>
      && |jobs| > 0 && ValidBudget(maxWorkers, budget, hostBudget)
      && StartsWorkers(Enqueue(s.pool, jobs, maxWorkers, budget, hostBudget), |s.workers|, started)
    case Take(w, capacity) =>
      w < |s.workers| && s.workers[w].Idle? && IsCapacity(s.pool, capacity)
    case Encode(w, _) => IsBusy(s, w, Encoding)
    case Exchange(w) => IsBusy(s, w, Failing)
    case Raise(w) => IsBusy(s, w, Raising)
    case Release(w) => IsBusy(s, w, Releasing)
    case PublishStep(w) => IsBusy(s, w, Publishing)
    case Interrupt(b) => IsWaiting(s, b) && !AllDone(s.pool.batches[b])
    case Discard(b) =>
      IsWaiting(s, b) && !AllDone(s.pool.batches[b]) && !s.callers[b].discarded && s.pool.batches[b].cancelled
    case Count(b) => b < |s.pool.batches| && b < |s.callers| && s.callers[b].Discarding?
    case Finish(b, _) => IsWaiting(s, b) && AllDone(s.pool.batches[b])
  }

  function WithWorker(s: System, pool: Pool, w: nat, worker: Worker): System
    requires w < |s.workers|
  {
    s.(pool := pool, workers := s.workers[w := worker])
  }

  function WithCaller(s: System, pool: Pool, b: nat, caller: Caller): System
    requires b < |s.callers|
  {
    s.(pool := pool, callers := s.callers[b := caller])
  }

  function Key(e: Entry): (nat, nat) {
    (e.batch, e.job)
  }

  /** Keys of the queued jobs of batch b. */
  ghost function QueuedKeys(queue: seq<Entry>, b: nat, n: nat): multiset<(nat, nat)>
    requires n <= |queue|
  {
    Gather(KeysOf(b), queue, n)
  }

  ghost function KeysOf(b: nat): Entry -> multiset<(nat, nat)> {
    (e: Entry) => if e.batch == b then multiset{Key(e)} else multiset{}
  }

  /** Encoding is skipped when the batch is cancelled by then. */
  function Encoded(c: Config, s: System, w: nat, failure: Option<nat>): Worker
    requires IsBusy(s, w, Encoding)
  {
    var worker := s.workers[w];
    var e := worker.entry;
    if s.pool.batches[e.batch].cancelled then worker.(stage := Releasing)
    else if failure.Some? then worker.(stage := Failing, outcome := Failed(failure.value))
    else
      worker.(stage := Releasing,
              outcome := Done(c.encode(if e.job < |s.pool.batches[e.batch].jobs| then s.pool.batches[e.batch].jobs[e.job] else 0,
                                       e.threads)))
  }

  function ResultOf(batch: Batch, interrupted: bool): Return {
    if interrupted then Interrupted
    else if batch.error.Some? then Error(batch.error.value)
    else Results(batch.results)
  }

  ghost function Next(c: Config, s: System, step: Step): System
    requires Enabled(s, step)
  {
    match step
    case Submit(jobs, maxWorkers, budget, hostBudget, started) =>
      s.(pool := Enqueue(s.pool, jobs, maxWorkers, budget, hostBudget), callers := s.callers + [Waiting(false, false)],
         workers := s.workers + seq(started, _ => Idle))
    case Take(w, capacity) =>
      var (pool, taken) := TryTake(s.pool, capacity);
      WithWorker(s, pool, w, if taken.Job? then Busy(Encoding, taken.entry, taken.reserved, NotRun) else Idle)
    case Encode(w, failure) => WithWorker(s, s.pool, w, Encoded(c, s, w, failure))
    case Exchange(w) =>
      var b := s.workers[w].entry.batch;
      WithWorker(s, Cancel(s.pool, b), w,
                 s.workers[w].(stage := if s.pool.batches[b].cancelled then Releasing else Raising))
    case Raise(w) =>
      var worker := s.workers[w];
      WithWorker(s, if worker.outcome.Failed? then SetError(s.pool, worker.entry.batch, worker.outcome.error) else s.pool, w,
                 worker.(stage := Releasing))
    case Release(w) =>
      var worker := s.workers[w];
      WithWorker(s, GiveBack(s.pool, worker.entry, worker.reserved), w, worker.(stage := Publishing))
    case PublishStep(w) =>
      var worker := s.workers[w];
      WithWorker(s, Publish(s.pool, worker.entry, if worker.outcome.Done? then Some(worker.outcome.value) else None), w, Idle)
        .(settled := s.settled + multiset{Key(worker.entry)})
    case Interrupt(b) => WithCaller(s, Cancel(s.pool, b), b, Waiting(true, s.callers[b].discarded))
    case Discard(b) =>
      var (pool, discarded) := DiscardQueued(s.pool, b);
      WithCaller(s, pool, b, Discarding(s.callers[b].interrupted, discarded))
        .(settled := s.settled + QueuedKeys(s.pool.queue, b, |s.pool.queue|))
    case Count(b) =>
      WithCaller(s, CountDiscarded(s.pool, b, s.callers[b].count), b, Waiting(s.callers[b].interrupted, true))
    case Finish(b, late) =>
      WithCaller(s, s.pool, b, Returned(ResultOf(s.pool.batches[b], s.callers[b].interrupted || late)))
  }

  ghost predicate Start(s: System) {
    s == System(Pool([], [], [], 0), [], [], multiset{})
  }

  ghost predicate IsStep(c: Config, s: System, step: Step, r: System) {
    Enabled(s, step) && r == Next(c, s, step)
  }

  ghost predicate IsRun(c: Config, states: seq<System>, steps: seq<Step>) {
    && |states| == |steps| + 1 && Start(states[0])
    && forall k: nat :: k < |steps| ==> IsStep(c, states[k], steps[k], states[k + 1])
  }

  // What is counted ----------------------------------------------------------------------------------

  function Flag(b: bool): nat {
    if b then 1 else 0
  }

  ghost function QueuedOf(b: nat): Entry -> nat {
    (e: Entry) => Flag(e.batch == b)
  }

  ghost function QueuedKey(key: (nat, nat)): Entry -> nat {
    (e: Entry) => Flag(Key(e) == key)
  }

  /** Does the worker have a job of batch b that is not completed? */
  ghost function FlightOf(b: nat): Worker -> nat {
    (w: Worker) => Flag(w.Busy? && w.entry.batch == b)
  }

  ghost function FlightKey(key: (nat, nat)): Worker -> nat {
    (w: Worker) => Flag(w.Busy? && Key(w.entry) == key)
  }

  /** ... that still counts as remaining? */
  ghost function HeldOf(b: nat): Worker -> nat {
    (w: Worker) => Flag(w.Busy? && w.stage != Publishing && w.entry.batch == b)
  }

  ghost function ActiveOf(b: nat): Worker -> nat {
    (w: Worker) => Flag(w.Busy? && w.stage != Publishing && w.entry.batch == b && w.reserved)
  }

  function ThreadsIn(w: Worker): nat {
    if w.Busy? && w.stage != Publishing && w.reserved then w.entry.threads else 0
  }

  ghost function ThreadsOf(b: nat): Worker -> nat {
    (w: Worker) => if w.Busy? && w.entry.batch == b then ThreadsIn(w) else 0
  }

  ghost function RaisingOf(b: nat): Worker -> nat {
    (w: Worker) => Flag(w.Busy? && w.stage == Raising && w.entry.batch == b)
  }

  ghost function CountQueue(f: Entry -> nat, s: System): nat {
    Total(f, s.pool.queue, |s.pool.queue|)
  }

  ghost function CountWorkers(f: Worker -> nat, s: System): nat {
    Total(f, s.workers, |s.workers|)
  }

  // The invariant ------------------------------------------------------------------------------------

  function DiscardingCount(caller: Caller): nat {
    if caller.Discarding? then caller.count else 0
  }

  ghost predicate BudgetOk(s: System, b: nat) {
    b < |s.pool.batches| ==>
      var batch := s.pool.batches[b];
      && 1 <= batch.maxWorkers <= batch.threadBudget <= batch.hostBudget
      && batch.activeWorkers == CountWorkers(ActiveOf(b), s) <= batch.maxWorkers
      && batch.activeThreads == CountWorkers(ThreadsOf(b), s) <= batch.threadBudget
  }

  ghost predicate CountsOk(s: System, b: nat) {
    b < |s.pool.batches| && b < |s.callers| ==>
      var batch := s.pool.batches[b];
      && |batch.results| == |batch.jobs| > 0
      && batch.remaining == CountQueue(QueuedOf(b), s) + CountWorkers(HeldOf(b), s)
      && |batch.jobs| == CountQueue(QueuedOf(b), s) + CountWorkers(FlightOf(b), s)
                         + DiscardingCount(s.callers[b]) + batch.completed
  }

  function WasInterrupted(caller: Caller): bool {
    match caller
    case Waiting(interrupted, _) => interrupted
    case Discarding(interrupted, _) => interrupted
    case Returned(_) => true
  }

  /** A batch is cancelled for a reason that its caller will report, and a returned one is complete. */
  ghost predicate CallerOk(s: System, b: nat) {
    b < |s.pool.batches| && b < |s.callers| ==>
      var batch, caller := s.pool.batches[b], s.callers[b];
      && (batch.cancelled ==> WasInterrupted(caller) || batch.error.Some? || CountWorkers(RaisingOf(b), s) > 0)
      && (caller.Discarding? || (caller.Waiting? && (caller.discarded || caller.interrupted)) || batch.error.Some? ==> batch.cancelled)
      && (caller.Discarding? || (caller.Waiting? && caller.discarded) ==> CountQueue(QueuedOf(b), s) == 0)
      && (caller.Returned? ==> AllDone(batch))
  }

  ghost predicate EntryOk(s: System, e: Entry) {
    && e.batch < |s.pool.batches| && e.job < |s.pool.batches[e.batch].jobs|
    && 1 <= e.threads <= s.pool.batches[e.batch].threadBudget
    && e.threads == JobThreads(s.pool.batches[e.batch], e.job)
  }

  ghost predicate QueueEntryOk(s: System, i: nat) {
    i < |s.pool.queue| ==> EntryOk(s, s.pool.queue[i])
  }

  ghost predicate WorkerOk(c: Config, s: System, w: nat) {
    w < |s.workers| && s.workers[w].Busy? ==>
      var worker := s.workers[w];
      var e := worker.entry;
      && EntryOk(s, e)
      && (worker.outcome.Done? ==> worker.outcome.value == c.encode(s.pool.batches[e.batch].jobs[e.job], e.threads))
      && (worker.stage == Failing || worker.stage == Raising ==> worker.outcome.Failed?)
      && (worker.stage == Encoding ==> worker.outcome == NotRun)
      && ((worker.stage == Raising || worker.stage == Releasing || worker.stage == Publishing) && !worker.outcome.Done? ==>
            s.pool.batches[e.batch].cancelled)
  }

  /** Threads of a job, by its slot. */
  function JobThreads(batch: Batch, job: nat): nat {
    if batch.maxWorkers == 0 then 0
    else Share(batch.threadBudget / batch.maxWorkers, batch.threadBudget % batch.maxWorkers, batch.maxWorkers, job)
  }

  function Submitted(s: System, key: (nat, nat)): nat {
    Flag(key.0 < |s.pool.batches| && key.1 < |s.pool.batches[key.0].jobs|)
  }

  /** Each submitted job is in exactly one place: queued, with a worker, or settled. */
  ghost predicate KeyOk(s: System, key: (nat, nat)) {
    CountQueue(QueuedKey(key), s) + CountWorkers(FlightKey(key), s) + s.settled[key] == Submitted(s, key)
  }

  /** A settled job of a batch that was not cancelled has its own encoding as result. */
  ghost predicate ResultOk(c: Config, s: System, key: (nat, nat)) {
    key in s.settled && key.0 < |s.pool.batches| && !s.pool.batches[key.0].cancelled ==>
      var batch := s.pool.batches[key.0];
      && key.1 < |batch.jobs| == |batch.results|
      && batch.results[key.1] == Some(c.encode(batch.jobs[key.1], JobThreads(batch, key.1)))
  }

  ghost predicate PoolOk(s: System) {
    && |s.callers| == |s.pool.batches|
    && s.pool.activeThreads == CountWorkers(ThreadsIn, s)
    && (forall b :: b in s.pool.registered ==> b < |s.pool.batches|)
    && (|s.pool.batches| > 0 ==> |s.workers| > 0)
  }

  ghost predicate RegisteredOk(s: System, b: nat) {
    Live(s.pool, b) ==> b in s.pool.registered
  }

  ghost predicate Inv(c: Config, s: System) {
    && PoolOk(s)
    && (forall b: nat :: BudgetOk(s, b))
    && (forall b: nat :: CountsOk(s, b))
    && (forall b: nat :: CallerOk(s, b))
    && (forall b: nat :: RegisteredOk(s, b))
    && (forall i: nat :: QueueEntryOk(s, i))
    && (forall w: nat :: WorkerOk(c, s, w))
    && (forall key :: KeyOk(s, key))
    && (forall key :: ResultOk(c, s, key))
  }
}
