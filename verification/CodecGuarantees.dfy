/** What every run of the codec executor guarantees. */
module CodecGuarantees {
  import opened Collections
  import opened CodecPool
  import opened CodecRuns
  import opened CodecInvariant
  import opened Sums

  // Jobs and results ---------------------------------------------------------------------------------

  /** Each submitted job is queued once, or held by one worker, or settled once. */
  lemma EachJobIsInOnePlace(c: Config, s: System, key: (nat, nat))
    requires Inv(c, s) && key.0 < |s.pool.batches| && key.1 < |s.pool.batches[key.0].jobs|
    ensures CountQueue(QueuedKey(key), s) + CountWorkers(FlightKey(key), s) + s.settled[key] == 1
  {
    assert KeyOk(s, key);
  }

  /** Once the Execute call of batch b may return, nothing refers to its FileSystem any more. */
  lemma FinishedBatchIsFree(c: Config, s: System, b: nat)
    requires Inv(c, s) && b < |s.pool.batches| && (s.callers[b].Returned? || AllDone(s.pool.batches[b]))
    ensures forall i :: 0 <= i < |s.pool.queue| ==> s.pool.queue[i].batch != b
    ensures forall w :: 0 <= w < |s.workers| && s.workers[w].Busy? ==> s.workers[w].entry.batch != b
  {
    assert CallerOk(s, b) && CountsOk(s, b);
    forall i | 0 <= i < |s.pool.queue| ensures s.pool.queue[i].batch != b {
      TotalAtLeast(QueuedOf(b), s.pool.queue, |s.pool.queue|, i);
    }
    forall w | 0 <= w < |s.workers| && s.workers[w].Busy? ensures s.workers[w].entry.batch != b {
      TotalAtLeast(FlightOf(b), s.workers, |s.workers|, w);
    }
  }

  lemma FinishedJobIsSettled(c: Config, s: System, b: nat, j: nat)
    requires Inv(c, s) && b < |s.pool.batches| && AllDone(s.pool.batches[b]) && j < |s.pool.batches[b].jobs|
    ensures (b, j) in s.settled
  {
    FinishedBatchIsFree(c, s, b);
    assert KeyOk(s, (b, j));
    TotalZero(QueuedKey((b, j)), s.pool.queue, |s.pool.queue|);
    TotalZero(FlightKey((b, j)), s.workers, |s.workers|);
  }

  /** A call that returns results returns the encoding of every job at the job's position, in whatever
      order the jobs were completed; otherwise it was interrupted or reports an error. */
  lemma ResultsAreTheEncodings(c: Config, s: System, b: nat, late: bool)
    requires Inv(c, s) && Enabled(s, Finish(b, late))
    ensures var batch := s.pool.batches[b];
            match ResultOf(batch, s.callers[b].interrupted || late)
            case Results(results) =>
              && !batch.cancelled && |results| == |batch.jobs|
              && forall j :: 0 <= j < |results| ==> results[j] == Some(c.encode(batch.jobs[j], JobThreads(batch, j)))
            case Interrupted => s.callers[b].interrupted || late
            case Error(error) => batch.cancelled && batch.error == Some(error)
  {
    var batch := s.pool.batches[b];
    assert CallerOk(s, b) && CountsOk(s, b);
    FinishedBatchIsFree(c, s, b);
    TotalZero(RaisingOf(b), s.workers, |s.workers|);
    if !batch.cancelled {
      forall j: nat | j < |batch.results|
        ensures batch.results[j] == Some(c.encode(batch.jobs[j], JobThreads(batch, j)))
      {
        FinishedJobIsSettled(c, s, b, j);
        assert ResultOk(c, s, (b, j));
      }
    }
  }

  // Budgets ------------------------------------------------------------------------------------------

  ghost function ThreadsOfFirst(n: nat): Worker -> nat {
    (w: Worker) => if w.Busy? && w.entry.batch < n then ThreadsIn(w) else 0
  }

  ghost function ActiveThreadsOfFirst(s: System, n: nat): int
    requires n <= |s.pool.batches|
  {
    if n == 0 then 0 else ActiveThreadsOfFirst(s, n - 1) + s.pool.batches[n - 1].activeThreads
  }

  lemma {:induction false} ThreadsAddUp(workers: seq<Worker>, n: nat, k: nat)
    requires k <= |workers|
    ensures Total(ThreadsOfFirst(n + 1), workers, k) == Total(ThreadsOfFirst(n), workers, k) + Total(ThreadsOf(n), workers, k)
  {
    if k > 0 {
      ThreadsAddUp(workers, n, k - 1);
    }
  }

  lemma {:induction false} FirstBatchesUse(c: Config, s: System, n: nat)
    requires Inv(c, s) && n <= |s.pool.batches|
    ensures ActiveThreadsOfFirst(s, n) == CountWorkers(ThreadsOfFirst(n), s)
  {
    if n == 0 {
      TotalZero(ThreadsOfFirst(0), s.workers, |s.workers|);
    } else {
      FirstBatchesUse(c, s, n - 1);
      assert BudgetOk(s, n - 1);
      ThreadsAddUp(s.workers, n - 1, |s.workers|);
    }
  }

  lemma {:induction false} SameTotals(f: Worker -> nat, g: Worker -> nat, workers: seq<Worker>, n: nat)
    requires n <= |workers| && forall i :: 0 <= i < n ==> f(workers[i]) == g(workers[i])
    ensures Total(f, workers, n) == Total(g, workers, n)
  {
    if n > 0 {
      SameTotals(f, g, workers, n - 1);
    }
  }

  /** The executor's thread count is the sum over its batches, and each batch keeps to its budgets. */
  lemma BudgetsAreKept(c: Config, s: System)
    requires Inv(c, s)
    ensures s.pool.activeThreads == ActiveThreadsOfFirst(s, |s.pool.batches|)
    ensures forall b :: 0 <= b < |s.pool.batches| ==>
              && 0 <= s.pool.batches[b].activeWorkers <= s.pool.batches[b].maxWorkers
              && 0 <= s.pool.batches[b].activeThreads <= s.pool.batches[b].threadBudget <= s.pool.batches[b].hostBudget
  {
    var n := |s.pool.batches|;
    FirstBatchesUse(c, s, n);
    forall i | 0 <= i < |s.workers| ensures ThreadsOfFirst(n)(s.workers[i]) == ThreadsIn(s.workers[i]) {
      assert WorkerOk(c, s, i);
    }
    SameTotals(ThreadsOfFirst(n), ThreadsIn, s.workers, |s.workers|);
    forall b | 0 <= b < n
      ensures 0 <= s.pool.batches[b].activeWorkers <= s.pool.batches[b].maxWorkers
      ensures 0 <= s.pool.batches[b].activeThreads <= s.pool.batches[b].threadBudget <= s.pool.batches[b].hostBudget
    {
      assert BudgetOk(s, b);
    }
  }

  /** A job is admitted only while all threads in use fit the host budget of every unfinished batch. */
  lemma AdmissionFitsEveryHostBudget(c: Config, s: System, w: nat, capacity: nat, b: nat)
    requires Inv(c, s) && Enabled(s, Take(w, capacity)) && Live(s.pool, b)
    requires TryTake(s.pool, capacity).1.Job? && TryTake(s.pool, capacity).1.reserved
    ensures Next(c, s, Take(w, capacity)).pool.activeThreads <= s.pool.batches[b].hostBudget
  {
    TakeShape(c, s, w, capacity);
    assert RegisteredOk(s, b);
  }

  // Progress -----------------------------------------------------------------------------------------

  lemma {:induction false} LeastBudget(p: Pool, registered: seq<nat>) returns (least: Option<nat>)
    ensures least.None? ==> forall b :: b in registered ==> !Live(p, b)
    ensures least.Some? ==> least.value in registered && Live(p, least.value)
    ensures least.Some? ==> forall b :: b in registered && Live(p, b) ==> p.batches[least.value].hostBudget <= p.batches[b].hostBudget
  {
    least := None;
    if registered != [] {
      var front, last := registered[..|registered| - 1], registered[|registered| - 1];
      least := LeastBudget(p, front);
      assert forall b :: b in registered ==> b in front || b == last;
      if Live(p, last) && (least.None? || p.batches[last].hostBudget < p.batches[least.value].hostBudget) {
        least := Some(last);
      }
    }
  }

  lemma {:induction false} SomeEntryOf(queue: seq<Entry>, b: nat, n: nat) returns (i: nat)
    requires n <= |queue| && Total(QueuedOf(b), queue, n) > 0
    ensures i < n && queue[i].batch == b
  {
    if queue[n - 1].batch == b {
      i := n - 1;
    } else {
      i := SomeEntryOf(queue, b, n - 1);
    }
  }

  ghost predicate AllIdle(s: System) {
    forall w :: 0 <= w < |s.workers| ==> s.workers[w].Idle?
  }

  lemma IdleWorkersUseNothing(c: Config, s: System, b: nat)
    requires Inv(c, s) && AllIdle(s) && b < |s.pool.batches|
    ensures s.pool.activeThreads == 0 && s.pool.batches[b].activeWorkers == 0 && s.pool.batches[b].activeThreads == 0
    ensures s.pool.batches[b].remaining == CountQueue(QueuedOf(b), s)
    ensures |s.pool.batches[b].jobs| == CountQueue(QueuedOf(b), s) + DiscardingCount(s.callers[b]) + s.pool.batches[b].completed
  {
    assert BudgetOk(s, b) && CountsOk(s, b);
    TotalZero(ThreadsIn, s.workers, |s.workers|);
    TotalZero(ThreadsOf(b), s.workers, |s.workers|);
    TotalZero(ActiveOf(b), s.workers, |s.workers|);
    TotalZero(HeldOf(b), s.workers, |s.workers|);
    TotalZero(FlightOf(b), s.workers, |s.workers|);
  }

  lemma QueuedBatchIsLive(c: Config, s: System)
    requires Inv(c, s) && AllIdle(s) && s.pool.queue != []
    ensures s.pool.queue[0].batch in s.pool.registered && Live(s.pool, s.pool.queue[0].batch)
  {
    var b := s.pool.queue[0].batch;
    assert QueueEntryOk(s, 0) && RegisteredOk(s, b);
    IdleWorkersUseNothing(c, s, b);
    TotalAtLeast(QueuedOf(b), s.pool.queue, |s.pool.queue|, 0);
  }

  /** With jobs queued and none in flight, a worker always finds one to take, also when the batches
      come with different host budgets. */
  lemma IdlePoolTakesAJob(c: Config, s: System) returns (capacity: nat)
    requires Inv(c, s) && AllIdle(s) && s.pool.queue != []
    ensures IsCapacity(s.pool, capacity) && TryTake(s.pool, capacity).1.Job?
  {
    QueuedBatchIsLive(c, s);
    var least := LeastBudget(s.pool, s.pool.registered);
    var b := least.value;
    capacity := s.pool.batches[b].hostBudget;
    IdleWorkersUseNothing(c, s, b);
    assert BudgetOk(s, b) && CountsOk(s, b);
    var i := SomeEntryOf(s.pool.queue, b, |s.pool.queue|);
    assert QueueEntryOk(s, i);
    var pruned := s.pool.(registered := Prune(s.pool, s.pool.registered));
    assert Takeable(pruned, capacity, pruned.queue[i]);
  }

  /** Every step but the arrival of work or an interrupt, and looking for a job in vain. */
  ghost predicate Productive(s: System, step: Step) {
    && Enabled(s, step) && !step.Submit? && !step.Interrupt?
    && (step.Take? ==> TryTake(s.pool, step.capacity).1.Job?)
  }

  /** While an Execute call has not returned, some step can be taken. */
  lemma SomeoneCanProceed(c: Config, s: System, b: nat) returns (step: Step)
    requires Inv(c, s) && b < |s.callers| && !s.callers[b].Returned?
    ensures Productive(s, step)
  {
    if !AllIdle(s) {
      var w: nat :| w < |s.workers| && s.workers[w].Busy?;
      assert WorkerOk(c, s, w);
      match s.workers[w].stage
      case Encoding => step := Encode(w, None);
      case Failing => step := Exchange(w);
      case Raising => step := Raise(w);
      case Releasing => step := Release(w);
      case Publishing => step := PublishStep(w);
    } else if s.pool.queue != [] {
      var capacity := IdlePoolTakesAJob(c, s);
      step := Take(0, capacity);
    } else {
      IdleWorkersUseNothing(c, s, b);
      assert CountsOk(s, b);
      step := if s.callers[b].Discarding? then Count(b) else Finish(b, false);
    }
  }

  function Stages(w: Worker): nat {
    if w.Idle? then 0
    else match w.stage
         case Encoding => 5
         case Failing => 4
         case Raising => 3
         case Releasing => 2
         case Publishing => 1
  }

  function CallerStages(caller: Caller): nat {
    match caller
    case Waiting(_, discarded) => if discarded then 1 else 3
    case Discarding(_, _) => 2
    case Returned(_) => 0
  }

  /** A bound on the productive steps still to come. */
  ghost function Work(s: System): nat {
    6 * |s.pool.queue| + Total(Stages, s.workers, |s.workers|) + Total(CallerStages, s.callers, |s.callers|)
  }

  lemma WorkerStepsLess(s: System, r: System, w: nat)
    requires w < |s.workers| == |r.workers| && r.workers == s.workers[w := r.workers[w]] && r.callers == s.callers
    requires 6 * |r.pool.queue| + Stages(r.workers[w]) < 6 * |s.pool.queue| + Stages(s.workers[w])
    ensures Work(r) < Work(s)
  {
    TotalUpdate(Stages, s.workers, |s.workers|, w, r.workers[w]);
  }

  lemma CallerStepsLess(s: System, r: System, b: nat)
    requires b < |s.callers| == |r.callers| && r.callers == s.callers[b := r.callers[b]] && r.workers == s.workers
    requires 6 * |r.pool.queue| + CallerStages(r.callers[b]) < 6 * |s.pool.queue| + CallerStages(s.callers[b])
    ensures Work(r) < Work(s)
  {
    TotalUpdate(CallerStages, s.callers, |s.callers|, b, r.callers[b]);
  }

  lemma TakeQueueShrinks(c: Config, s: System, w: nat, capacity: nat)
    requires Inv(c, s) && Productive(s, Take(w, capacity))
    ensures |Next(c, s, Take(w, capacity)).pool.queue| == |s.pool.queue| - 1
  {
    TakeShape(c, s, w, capacity);
  }

  lemma ProductiveStepsLess(c: Config, s: System, step: Step)
    requires Inv(c, s) && Productive(s, step)
    ensures Work(Next(c, s, step)) < Work(s)
  {
    var r := Next(c, s, step);
    match step
    case Take(w, capacity) =>
      TakeQueueShrinks(c, s, w, capacity);
      WorkerStepsLess(s, r, w);
    case Encode(w, _) => WorkerStepsLess(s, r, w);
    case Exchange(w) => WorkerStepsLess(s, r, w);
    case Raise(w) => WorkerStepsLess(s, r, w);
    case Release(w) => WorkerStepsLess(s, r, w);
    case PublishStep(w) => WorkerStepsLess(s, r, w);
    case Discard(b) => CallerStepsLess(s, r, b);
    case Count(b) => CallerStepsLess(s, r, b);
    case Finish(b, _) => CallerStepsLess(s, r, b);
  }

  ghost predicate IsProductiveRun(c: Config, states: seq<System>, steps: seq<Step>) {
    && |states| == |steps| + 1
    && forall k: nat :: k < |steps| ==> Productive(states[k], steps[k]) && IsStep(c, states[k], steps[k], states[k + 1])
  }

  lemma {:induction false} ProductiveRunBounded(c: Config, states: seq<System>, steps: seq<Step>, k: nat)
    requires IsProductiveRun(c, states, steps) && Inv(c, states[0]) && k <= |steps|
    ensures Inv(c, states[k]) && Work(states[k]) + k <= Work(states[0])
  {
    if k > 0 {
      ProductiveRunBounded(c, states, steps, k - 1);
      StepKeepsInv(c, states[k - 1], steps[k - 1]);
      ProductiveStepsLess(c, states[k - 1], steps[k - 1]);
    }
  }

  /** Whatever order the productive steps come in, they end, and then every Execute call has returned. */
  lemma EveryCallReturns(c: Config, states: seq<System>, steps: seq<Step>, b: nat)
    requires IsProductiveRun(c, states, steps) && Inv(c, states[0])
    requires forall step :: !Productive(states[|steps|], step)
    ensures |steps| <= Work(states[0])
    ensures b < |states[|steps|].callers| ==> states[|steps|].callers[b].Returned?
  {
    ProductiveRunBounded(c, states, steps, |steps|);
    var last := states[|steps|];
    if b < |last.callers| && !last.callers[b].Returned? {
      var step := SomeoneCanProceed(c, last, b);
      assert false;
    }
  }
}
