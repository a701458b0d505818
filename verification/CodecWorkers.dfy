/** How many workers run: in every run, as many as the unfinished batches together can use, up to the largest of
    their host budgets, or as many as were needed before. */
module CodecWorkers {
  import opened Collections
  import opened CodecPool
  import opened CodecRuns
  import opened CodecInvariant
  import opened Sums

  /** Workers that a batch can use: as many as it may have, and no more than it has jobs left. */
  function Usable(batch: Batch): nat {
    if batch.remaining <= 0 then 0 else if batch.remaining < batch.maxWorkers then batch.remaining else batch.maxWorkers
  }

  predicate Unfinished(p: Pool, b: nat) {
    b < |p.batches| && p.batches[b].remaining != 0
  }

  ghost predicate IsLargestHostBudget(p: Pool, budget: nat) {
    && (forall b: nat :: Unfinished(p, b) ==> p.batches[b].hostBudget <= budget)
    && exists b: nat :: Unfinished(p, b) && p.batches[b].hostBudget == budget
  }

  // Batches are registered in the order of their submission -----------------------------------------------

  predicate Rises(registered: seq<nat>, i: nat, j: nat)
    requires i < |registered| && j < |registered|
  {
    registered[i] < registered[j]
  }

  ghost predicate InOrder(registered: seq<nat>) {
    forall i: nat, j: nat :: i < j < |registered| ==> Rises(registered, i, j)
  }

  ghost predicate RegisteredInOrder(p: Pool) {
    InOrder(p.registered) && forall k :: 0 <= k < |p.registered| ==> p.registered[k] < |p.batches|
  }

  lemma {:induction false} PrunedInOrder(p: Pool, registered: seq<nat>, n: nat)
    requires n <= |registered| && InOrder(registered)
    ensures InOrder(PruneFirst(p, registered, n))
    ensures forall b :: b in PruneFirst(p, registered, n) ==> b in registered[..n]
  {
    if n > 0 {
      PrunedInOrder(p, registered, n - 1);
      PruneKeepsLive(p, registered, n - 1);
      var before, last := PruneFirst(p, registered, n - 1), registered[n - 1];
      forall i | 0 <= i < |before| ensures before[i] < last {
        assert before[i] in registered[..n - 1];
        var j :| 0 <= j < n - 1 && registered[j] == before[i];
        assert Rises(registered, j, n - 1);
      }
      SnocInOrder(before, last);
    }
  }

  lemma SnocInOrder(registered: seq<nat>, b: nat)
    requires InOrder(registered) && forall i :: 0 <= i < |registered| ==> registered[i] < b
    ensures InOrder(registered + [b])
  {
    var more := registered + [b];
    forall i: nat, j: nat | i < j < |more| ensures Rises(more, i, j) {
      if j < |registered| {
        assert Rises(registered, i, j);
      }
    }
  }

  lemma TakeInOrder(p: Pool, capacity: nat)
    requires RegisteredInOrder(p)
    ensures RegisteredInOrder(TryTake(p, capacity).0)
  {
    var pruned := Prune(p, p.registered);
    PrunedInOrder(p, p.registered, |p.registered|);
    forall k | 0 <= k < |pruned| ensures pruned[k] < |p.batches| {
      assert pruned[k] in pruned;
    }
  }

  lemma StepInOrder(c: Config, s: System, step: Step)
    requires Enabled(s, step) && RegisteredInOrder(s.pool)
    ensures RegisteredInOrder(Next(c, s, step).pool)
  {
    match step
    case Submit(jobs, maxWorkers, budget, hostBudget, started) => SnocInOrder(s.pool.registered, |s.pool.batches|);
    case Take(w, capacity) => TakeInOrder(s.pool, capacity);
    case _ =>
  }

  lemma {:induction false} RunInOrder(c: Config, states: seq<System>, steps: seq<Step>, k: nat)
    requires IsRun(c, states, steps) && k <= |steps|
    ensures RegisteredInOrder(states[k].pool)
  {
    if k > 0 {
      RunInOrder(c, states, steps, k - 1);
      assert IsStep(c, states[k - 1], steps[k - 1], states[k]);
      StepInOrder(c, states[k - 1], steps[k - 1]);
    }
  }

  // What the workers are for ------------------------------------------------------------------------------

  ghost predicate KnowsUnfinished(p: Pool, b: nat) {
    Unfinished(p, b) ==> b in p.registered
  }

  /** The first k registered batches are those among the first n. */
  ghost predicate Reaches(p: Pool, k: nat, n: nat) {
    && k <= |p.registered| && n <= |p.batches|
    && (k > 0 ==> p.registered[k - 1] < n) && (k < |p.registered| ==> n <= p.registered[k])
  }

  lemma UnregisteredIsFinished(p: Pool, k: nat, n: nat)
    requires RegisteredInOrder(p) && 0 < n && KnowsUnfinished(p, n - 1) && Reaches(p, k, n)
    requires k > 0 ==> p.registered[k - 1] != n - 1
    ensures !Unfinished(p, n - 1)
  {
    forall j: nat | j < |p.registered| ensures p.registered[j] != n - 1 {
      if j + 1 < k {
        assert Rises(p.registered, j, k - 1);
      } else if k < j {
        assert Rises(p.registered, k, j);
      }
    }
  }

  lemma {:induction false} WantedIsUsable(p: Pool, k: nat, n: nat)
    requires RegisteredInOrder(p) && (forall b: nat :: KnowsUnfinished(p, b)) && Reaches(p, k, n)
    ensures Wanted(p, k) == Total(Usable, p.batches, n)
    decreases n
  {
    if n == 0 {
    } else if k > 0 && p.registered[k - 1] == n - 1 {
      assert k > 1 ==> Rises(p.registered, k - 2, k - 1);
      WantedIsUsable(p, k - 1, n - 1);
      assert WantedBy(p, n - 1) == Usable(p.batches[n - 1]);
    } else {
      assert KnowsUnfinished(p, n - 1);
      UnregisteredIsFinished(p, k, n);
      WantedIsUsable(p, k, n - 1);
    }
  }

  function Max(a: nat, b: nat): nat {
    if a < b then b else a
  }

  function Least(a: nat, b: nat): nat {
    if b < a then b else a
  }

  /** There are as many workers as before, or as the batches can use within the largest host budget. */
  ghost predicate HasWorkers(p: Pool, before: nat, workers: nat) {
    exists budget: nat :: IsLargestHostBudget(p, budget)
                          && workers == Max(before, Least(Total(Usable, p.batches, |p.batches|), budget))
  }

  lemma LargestIs(p: Pool, capacity: nat, b: nat)
    requires RegisteredInOrder(p) && (forall k: nat :: KnowsUnfinished(p, k)) && IsLargestBudget(p, capacity)
    requires Unfinished(p, b) && p.batches[b].hostBudget > 0
    ensures IsLargestHostBudget(p, capacity)
  {
    forall a: nat | Unfinished(p, a) ensures p.batches[a].hostBudget <= capacity {
      assert KnowsUnfinished(p, a);
      var k :| 0 <= k < |p.registered| && p.registered[k] == a;
      assert Live(p, p.registered[k]);
    }
    assert p.batches[b].hostBudget <= capacity;
  }

  lemma StartedMeans(p: Pool, before: nat, started: nat, b: nat)
    requires RegisteredInOrder(p) && (forall k: nat :: KnowsUnfinished(p, k)) && StartsWorkers(p, before, started)
    requires Unfinished(p, b) && p.batches[b].hostBudget > 0
    ensures HasWorkers(p, before, before + started)
  {
    var desired: nat :| IsDesired(p, desired) && started == if before < desired then desired - before else 0;
    var capacity :| IsLargestBudget(p, capacity)
      && desired == if Wanted(p, |p.registered|) < capacity then Wanted(p, |p.registered|) else capacity;
    WantedIsUsable(p, |p.registered|, |p.batches|);
    LargestIs(p, capacity, b);
  }

  /** Whenever a call has queued its jobs, the missing workers have been started, and no more. */
  lemma WorkersForAllBatches(c: Config, states: seq<System>, steps: seq<Step>, k: nat)
    requires IsRun(c, states, steps) && k < |steps| && steps[k].Submit?
    ensures HasWorkers(states[k + 1].pool, |states[k].workers|, |states[k + 1].workers|)
  {
    assert IsStep(c, states[k], steps[k], states[k + 1]);
    RunInOrder(c, states, steps, k + 1);
    RunKeepsInv(c, states, steps, k + 1);
    var p, b := states[k + 1].pool, |states[k].pool.batches|;
    forall a: nat ensures KnowsUnfinished(p, a) {
      assert RegisteredOk(states[k + 1], a);
    }
    StartedMeans(p, |states[k].workers|, steps[k].started, b);
  }

  // What a call asked for stays ---------------------------------------------------------------------------

  /** The batch is what the call asked for; it may have the least of its jobs, its workers and its threads as workers. */
  ghost predicate IsAsSubmitted(batch: Batch, step: Step) {
    && step.Submit? && batch.jobs == step.jobs && batch.threadBudget == step.budget && batch.hostBudget == step.hostBudget
    && batch.maxWorkers <= |step.jobs| && batch.maxWorkers <= step.maxWorkers && batch.maxWorkers <= step.budget
    && (batch.maxWorkers == |step.jobs| || batch.maxWorkers == step.maxWorkers || batch.maxWorkers == step.budget)
  }

  ghost predicate SubmittedIn(states: seq<System>, steps: seq<Step>, n: nat, b: nat, i: nat) {
    && i < n < |states| && i < |steps| && b < |states[n].pool.batches|
    && |states[i].pool.batches| == b && IsAsSubmitted(states[n].pool.batches[b], steps[i])
  }

  predicate SameTerms(a: Batch, b: Batch) {
    a.jobs == b.jobs && a.maxWorkers == b.maxWorkers && a.threadBudget == b.threadBudget && a.hostBudget == b.hostBudget
  }

  lemma TermsStay(c: Config, s: System, step: Step, b: nat)
    requires Enabled(s, step) && b < |s.pool.batches|
    ensures b < |Next(c, s, step).pool.batches| && SameTerms(s.pool.batches[b], Next(c, s, step).pool.batches[b])
  {
  }

  /** In every state of every run, batch b is what the call that queued it asked for. */
  lemma {:induction false} BatchIsAsSubmitted(c: Config, states: seq<System>, steps: seq<Step>, n: nat, b: nat) returns (i: nat)
    requires IsRun(c, states, steps) && n <= |steps| && b < |states[n].pool.batches|
    ensures SubmittedIn(states, steps, n, b, i)
  {
    assert n > 0;
    assert IsStep(c, states[n - 1], steps[n - 1], states[n]);
    if b < |states[n - 1].pool.batches| {
      i := BatchIsAsSubmitted(c, states, steps, n - 1, b);
      TermsStay(c, states[n - 1], steps[n - 1], b);
    } else {
      i := n - 1;
      NewIsAsSubmitted(c, states[n - 1], steps[n - 1], b);
    }
  }

  lemma NewIsAsSubmitted(c: Config, s: System, step: Step, b: nat)
    requires Enabled(s, step) && |s.pool.batches| <= b < |Next(c, s, step).pool.batches|
    ensures b == |s.pool.batches| && IsAsSubmitted(Next(c, s, step).pool.batches[b], step)
  {
  }

  /** Once a batch is cancelled, none of its results changes any more. */
  lemma CancelledResultsStay(c: Config, s: System, step: Step, b: nat)
    requires Enabled(s, step) && b < |s.pool.batches| && s.pool.batches[b].cancelled
    ensures var after := Next(c, s, step).pool.batches;
            b < |after| && after[b].cancelled && after[b].results == s.pool.batches[b].results
  {
  }
}
