/** The shared state of the codec executor, with its locked sections as functions on it. Batches are
    shared objects, named by their position in `batches`; `registered` lists the ones still tracked. */
module CodecPool {
  import opened Collections
  /** One Execute call. Results are set at the position of their job. */
  datatype Batch = Batch(jobs: seq<nat>, maxWorkers: nat, threadBudget: nat, hostBudget: nat,
                         activeWorkers: int, activeThreads: int, remaining: int,
                         cancelled: bool, error: Option<nat>, results: seq<Option<nat>>, completed: int)

  datatype Entry = Entry(batch: nat, job: nat, threads: nat)

  datatype Pool = Pool(queue: seq<Entry>, batches: seq<Batch>, registered: seq<nat>, activeThreads: int)

  datatype Taken = Nothing | Job(entry: Entry, reserved: bool)

  // Thread shares ------------------------------------------------------------------------------------

  /** Codec threads of job j, whose slot is j % workers: the first `extra` slots get one more. */
  function Share(base: nat, extra: nat, workers: nat, j: nat): nat
    requires workers > 0
  {
    base + if j % workers < extra then 1 else 0
  }

  function SharesBelow(base: nat, extra: nat, workers: nat, n: nat): nat
    requires workers > 0
  {
    if n == 0 then 0 else SharesBelow(base, extra, workers, n - 1) + Share(base, extra, workers, n - 1)
  }

  lemma SmallRemainder(j: nat, workers: nat)
    requires j < workers
    ensures j % workers == j
  {
  }

  lemma OneMoreTimes(n: nat, base: nat)
    requires n > 0
    ensures n * base == (n - 1) * base + base
  {
  }

  lemma {:induction false} SharesBelowIs(base: nat, extra: nat, workers: nat, n: nat)
    requires workers > 0 && n <= workers && extra < workers
    ensures SharesBelow(base, extra, workers, n) == n * base + if n < extra then n else extra
  {
    if n > 0 {
      SharesBelowIs(base, extra, workers, n - 1);
      SmallRemainder(n - 1, workers);
      OneMoreTimes(n, base);
    }
  }

  lemma TimesAtLeast(workers: nat, q: nat)
    requires workers > 0
    ensures workers * q >= q
  {
  }

  lemma Quotient(budget: nat, workers: nat, q: nat, r: nat)
    requires 0 < workers <= budget && budget == workers * q + r && r < workers
    ensures 1 <= q <= budget && (r > 0 ==> q < budget)
  {
    TimesAtLeast(workers, q);
    assert q == 0 ==> workers * q == 0;
  }

  lemma Division(budget: nat, workers: nat)
    requires 0 < workers <= budget
    ensures budget == workers * (budget / workers) + budget % workers
    ensures 1 <= budget / workers <= budget && (budget % workers > 0 ==> budget / workers < budget)
  {
    Quotient(budget, workers, budget / workers, budget % workers);
  }

  /** The slots use exactly the budget, and every job gets a thread. */
  lemma SharesMakeUpBudget(budget: nat, workers: nat, j: nat)
    requires 0 < workers <= budget
    ensures SharesBelow(budget / workers, budget % workers, workers, workers) == budget
    ensures 1 <= Share(budget / workers, budget % workers, workers, j) <= budget
  {
    SharesBelowIs(budget / workers, budget % workers, workers, workers);
    Division(budget, workers);
  }

  // Capacity -----------------------------------------------------------------------------------------

  predicate Live(p: Pool, b: nat) {
    b < |p.batches| && p.batches[b].remaining != 0
  }

  /** Those of the first n registered batches that still have jobs. */
  function PruneFirst(p: Pool, registered: seq<nat>, n: nat): (r: seq<nat>)
    requires n <= |registered|
    ensures |r| <= n
  {
    if n == 0 then []
    else if Live(p, registered[n - 1]) then PruneFirst(p, registered, n - 1) + [registered[n - 1]]
    else PruneFirst(p, registered, n - 1)
  }

  function Prune(p: Pool, registered: seq<nat>): seq<nat> {
    PruneFirst(p, registered, |registered|)
  }

  lemma {:induction false} PruneKeepsLive(p: Pool, registered: seq<nat>, n: nat)
    requires n <= |registered|
    ensures forall b :: b in PruneFirst(p, registered, n) <==> b in registered[..n] && Live(p, b)
  {
    if n > 0 {
      PruneKeepsLive(p, registered, n - 1);
      assert registered[..n] == registered[..n - 1] + [registered[n - 1]];
    }
  }

  lemma PruneIs(p: Pool, registered: seq<nat>)
    ensures forall b :: b in Prune(p, registered) <==> b in registered && Live(p, b)
  {
    PruneKeepsLive(p, registered, |registered|);
    assert registered[..|registered|] == registered;
  }

  /** `capacity` is the smallest host budget of the live registered batches, 1 without any. */
  ghost predicate IsCapacity(p: Pool, capacity: nat) {
    && (forall b :: b in p.registered && Live(p, b) ==> capacity <= p.batches[b].hostBudget)
    && ((exists b :: b in p.registered && Live(p, b) && capacity == p.batches[b].hostBudget)
        || (capacity == 1 && forall b :: b in p.registered ==> !Live(p, b)))
  }

  lemma CapacityIsUnique(p: Pool, a: nat, b: nat)
    requires IsCapacity(p, a) && IsCapacity(p, b)
    ensures a == b
  {
  }

  // How many workers ---------------------------------------------------------------------------------

  /** Workers the live batches can use, without regard to the hosts' budgets. */
  ghost function Wanted(p: Pool, n: nat): nat
    requires n <= |p.registered|
  {
    if n == 0 then 0
    else Wanted(p, n - 1) + WantedBy(p, p.registered[n - 1])
  }

  ghost function WantedBy(p: Pool, b: nat): nat {
    if !Live(p, b) || p.batches[b].remaining < 0 then 0
    else if p.batches[b].maxWorkers <= p.batches[b].remaining then p.batches[b].maxWorkers
    else p.batches[b].remaining
  }

  lemma {:induction false} WantedGrows(p: Pool, m: nat, n: nat)
    requires m <= n <= |p.registered|
    ensures Wanted(p, m) <= Wanted(p, n)
  {
    if m < n {
      WantedGrows(p, m, n - 1);
    }
  }

  /** `capacity` is the largest host budget of the live batches, 0 without any. */
  ghost predicate IsLargestBudget(p: Pool, capacity: nat) {
    && (forall k :: 0 <= k < |p.registered| && Live(p, p.registered[k]) ==> p.batches[p.registered[k]].hostBudget <= capacity)
    && (capacity == 0 || exists k :: 0 <= k < |p.registered| && Live(p, p.registered[k])
                                     && p.batches[p.registered[k]].hostBudget == capacity)
  }

  /** `desired` workers are worth having: what the live batches can use, up to the largest of their host budgets. */
  ghost predicate IsDesired(p: Pool, desired: nat) {
    exists capacity :: IsLargestBudget(p, capacity)
      && desired == if Wanted(p, |p.registered|) < capacity then Wanted(p, |p.registered|) else capacity
  }

  /** With `workers` running, `started` more make up the desired number. */
  ghost predicate StartsWorkers(p: Pool, workers: nat, started: nat) {
    exists desired: nat :: IsDesired(p, desired) && started == if workers < desired then desired - workers else 0
  }

  /** Someone is there for a live batch. */
  lemma LiveBatchHasWorkers(p: Pool, workers: nat, started: nat, k: nat)
    requires StartsWorkers(p, workers, started) && k < |p.registered| && Live(p, p.registered[k])
    requires var batch := p.batches[p.registered[k]]; batch.remaining > 0 && batch.maxWorkers > 0 && batch.hostBudget > 0
    ensures workers + started > 0
  {
    WantedGrows(p, k + 1, |p.registered|);
  }

  // TryTakeJobLocked ---------------------------------------------------------------------------------

  predicate CanReserve(p: Pool, capacity: nat, e: Entry) {
    && e.batch < |p.batches|
    && p.batches[e.batch].activeWorkers < p.batches[e.batch].maxWorkers
    && p.batches[e.batch].activeThreads + e.threads <= p.batches[e.batch].threadBudget
    && p.activeThreads + e.threads <= capacity
  }

  predicate IsCancelled(p: Pool, b: nat) {
    b < |p.batches| && p.batches[b].cancelled
  }

  predicate Takeable(p: Pool, capacity: nat, e: Entry) {
    IsCancelled(p, e.batch) || CanReserve(p, capacity, e)
  }

  /** Position of the first job at or after i that may be taken, or the queue length. */
  function FirstTakeable(p: Pool, capacity: nat, i: nat): (r: nat)
    requires i <= |p.queue|
    ensures i <= r <= |p.queue|
    ensures r < |p.queue| ==> Takeable(p, capacity, p.queue[r])
    ensures forall k :: i <= k < r ==> !Takeable(p, capacity, p.queue[k])
    decreases |p.queue| - i
  {
    if i == |p.queue| || Takeable(p, capacity, p.queue[i]) then i else FirstTakeable(p, capacity, i + 1)
  }

  function Without(queue: seq<Entry>, i: nat): seq<Entry>
    requires i < |queue|
  {
    queue[..i] + queue[i + 1..]
  }

  function WithBatch(p: Pool, b: nat, batch: Batch): Pool
    requires b < |p.batches|
  {
    p.(batches := p.batches[b := batch])
  }

  /** Count a job's budget as used, or no longer. */
  function Reserve(p: Pool, e: Entry): Pool
    requires e.batch < |p.batches|
  {
    var batch := p.batches[e.batch];
    WithBatch(p, e.batch, batch.(activeWorkers := batch.activeWorkers + 1, activeThreads := batch.activeThreads + e.threads))
      .(activeThreads := p.activeThreads + e.threads)
  }

  function TakeAt(p: Pool, i: nat): (Pool, Taken)
    requires i < |p.queue|
  {
    var e := p.queue[i];
    var rest := p.(queue := Without(p.queue, i));
    if e.batch >= |p.batches| || p.batches[e.batch].cancelled then (rest, Job(e, false))
    else (Reserve(rest, e), Job(e, true))
  }

  function TryTake(p: Pool, capacity: nat): (Pool, Taken) {
    var pruned := p.(registered := Prune(p, p.registered));
    var i := FirstTakeable(pruned, capacity, 0);
    if i == |p.queue| then (pruned, Nothing) else TakeAt(pruned, i)
  }

  // Execute ------------------------------------------------------------------------------------------

  /** The least of the three: no more workers than jobs, nor than allowed, nor than there are threads for. */
  function Workers(jobs: nat, maxWorkers: nat, budget: nat): (r: nat)
    ensures r <= jobs && r <= maxWorkers && r <= budget
    ensures r == jobs || r == maxWorkers || r == budget
  {
    var workers := if maxWorkers < jobs then maxWorkers else jobs;
    if workers < budget then workers else budget
  }

  function NewBatch(jobs: seq<nat>, workers: nat, budget: nat, hostBudget: nat): Batch {
    Batch(jobs, workers, budget, hostBudget, 0, 0, |jobs|, false, None, seq(|jobs|, _ => None), 0)
  }

  function Entries(b: nat, n: nat, workers: nat, budget: nat): (r: seq<Entry>)
    requires workers > 0
    ensures |r| == n && forall j :: 0 <= j < n ==> r[j] == Entry(b, j, Share(budget / workers, budget % workers, workers, j))
  {
    seq(n, j requires 0 <= j < n => Entry(b, j, Share(budget / workers, budget % workers, workers, j)))
  }

  predicate ValidBudget(maxWorkers: nat, budget: nat, hostBudget: nat) {
    maxWorkers > 0 && 0 < budget <= hostBudget
  }

  function Enqueue(p: Pool, jobs: seq<nat>, maxWorkers: nat, budget: nat, hostBudget: nat): Pool
    requires |jobs| > 0 && ValidBudget(maxWorkers, budget, hostBudget)
  {
    var b, workers := |p.batches|, Workers(|jobs|, maxWorkers, budget);
    p.(batches := p.batches + [NewBatch(jobs, workers, budget, hostBudget)],
       registered := p.registered + [b],
       queue := p.queue + Entries(b, |jobs|, workers, budget))
  }

  // Completion and cancellation ----------------------------------------------------------------------

  /** The first n queued jobs, without those of batch b. */
  function WithoutBatch(queue: seq<Entry>, b: nat, n: nat): (r: seq<Entry>)
    requires n <= |queue|
    ensures |r| <= n
  {
    if n == 0 then []
    else if queue[n - 1].batch != b then WithoutBatch(queue, b, n - 1) + [queue[n - 1]]
    else WithoutBatch(queue, b, n - 1)
  }

  lemma {:induction false} OthersAreLeft(queue: seq<Entry>, b: nat, n: nat)
    requires n <= |queue|
    ensures forall e :: e in WithoutBatch(queue, b, n) <==> e in queue[..n] && e.batch != b
  {
    if n > 0 {
      OthersAreLeft(queue, b, n - 1);
      assert queue[..n] == queue[..n - 1] + [queue[n - 1]];
    }
  }

  /** First section of DiscardCancelledJobs: drop the batch's queued jobs. */
  function DiscardQueued(p: Pool, b: nat): (Pool, nat)
    requires b < |p.batches|
  {
    var left := WithoutBatch(p.queue, b, |p.queue|);
    var discarded := |p.queue| - |left|;
    (WithBatch(p.(queue := left), b, p.batches[b].(remaining := p.batches[b].remaining - discarded)), discarded)
  }

  /** Second section of DiscardCancelledJobs. */
  function CountDiscarded(p: Pool, b: nat, discarded: nat): Pool
    requires b < |p.batches|
  {
    WithBatch(p, b, p.batches[b].(completed := p.batches[b].completed + discarded))
  }

  function Cancel(p: Pool, b: nat): Pool
    requires b < |p.batches|
  {
    WithBatch(p, b, p.batches[b].(cancelled := true))
  }

  function SetError(p: Pool, b: nat, error: nat): Pool
    requires b < |p.batches|
  {
    WithBatch(p, b, p.batches[b].(error := Some(error)))
  }

  /** CompleteJob, under the pool's lock: give back the budget and count the job down. */
  function GiveBack(p: Pool, e: Entry, reserved: bool): Pool
    requires e.batch < |p.batches|
  {
    var batch := p.batches[e.batch];
    var left := batch.(remaining := batch.remaining - 1);
    if reserved then
      WithBatch(p, e.batch, left.(activeWorkers := batch.activeWorkers - 1, activeThreads := batch.activeThreads - e.threads))
        .(activeThreads := p.activeThreads - e.threads)
    else WithBatch(p, e.batch, left)
  }

  /** CompleteJob, under the result lock: publish the result and the completion. */
  function Publish(p: Pool, e: Entry, encoded: Option<nat>): Pool
    requires e.batch < |p.batches|
  {
    var batch := p.batches[e.batch];
    var results := if encoded.Some? && !batch.cancelled && e.job < |batch.results| then batch.results[e.job := encoded]
                   else batch.results;
    WithBatch(p, e.batch, batch.(results := results, completed := batch.completed + 1))
  }
}
