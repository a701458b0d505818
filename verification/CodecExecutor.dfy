/** LerobotCodecExecutor: the queue, the batches and the thread count, changed in place by workers and
    callers. Each method is one locked section, proved to be the corresponding function on the pool. */
module CodecExecutor {
  import opened Collections
  import Q = CodecPool

  /** Erasing the element at |done|, or stepping past it. */
  lemma StepOver<T>(done: seq<T>, all: seq<T>, n: nat)
    requires n < |all|
    ensures var s := done + all[n..];
            && s[|done|] == all[n]
            && s[..|done|] + s[|done| + 1..] == done + all[n + 1..]
            && s == (done + [all[n]]) + all[n + 1..]
  {
  }

  /** `capacity` is the least host budget of the first n registered batches, if any of them is live. */
  ghost predicate LeastSoFar(p: Q.Pool, n: nat, found: bool, capacity: nat) {
    && n <= |p.registered|
    && (forall j :: 0 <= j < n && Q.Live(p, p.registered[j]) ==> found && capacity <= p.batches[p.registered[j]].hostBudget)
    && (found ==> exists j :: 0 <= j < n && Q.Live(p, p.registered[j]) && p.batches[p.registered[j]].hostBudget == capacity)
  }

  lemma LeastStep(p: Q.Pool, n: nat, found: bool, capacity: nat)
    requires LeastSoFar(p, n, found, capacity) && n < |p.registered|
    ensures !Q.Live(p, p.registered[n]) ==> LeastSoFar(p, n + 1, found, capacity)
    ensures Q.Live(p, p.registered[n]) ==>
              var budget := p.batches[p.registered[n]].hostBudget;
              LeastSoFar(p, n + 1, true, if !found || budget < capacity then budget else capacity)
  {
  }

  lemma LeastIsCapacity(p: Q.Pool, found: bool, capacity: nat)
    requires LeastSoFar(p, |p.registered|, found, capacity)
    ensures Q.IsCapacity(p, if found then capacity else 1)
  {
    forall b | b in p.registered && Q.Live(p, b) ensures found && capacity <= p.batches[b].hostBudget {
      var j :| 0 <= j < |p.registered| && p.registered[j] == b;
    }
  }

  /** The first `seen` registered batches have been gone through: the live ones are left, at the front. */
  ghost predicate Swept(p: Q.Pool, seen: nat, k: nat, current: seq<nat>, found: bool, capacity: nat) {
    && seen <= |p.registered| && k == |Q.PruneFirst(p, p.registered, seen)|
    && current == Q.PruneFirst(p, p.registered, seen) + p.registered[seen..]
    && LeastSoFar(p, seen, found, capacity)
  }

  /** The lesser of a host budget and the least one so far, if any. */
  function Least(found: bool, capacity: nat, budget: nat): nat {
    if !found || budget < capacity then budget else capacity
  }

  type Sweep = (nat, seq<nat>, bool, nat) -> bool

  /** The state of the sweep as a function value, which the loop need not look into. */
  ghost predicate SweepIs(sweep: Sweep, p: Q.Pool, k: nat, current: seq<nat>, found: bool, capacity: nat) {
    sweep(k, current, found, capacity) == exists seen: nat :: Swept(p, seen, k, current, found, capacity)
  }

  ghost predicate IsSweep(sweep: Sweep, p: Q.Pool) {
    forall k, current, found, capacity :: SweepIs(sweep, p, k, current, found, capacity)
  }

  lemma SweepBegins(p: Q.Pool) returns (sweep: Sweep)
    ensures IsSweep(sweep, p) && sweep(0, p.registered, false, 0)
  {
    sweep := (k: nat, current: seq<nat>, found: bool, capacity: nat) => exists seen: nat :: Swept(p, seen, k, current, found, capacity);
    assert [] + p.registered[0..] == p.registered;
    assert Swept(p, 0, 0, p.registered, false, 0);
    assert SweepIs(sweep, p, 0, p.registered, false, 0);
  }

  lemma SweepStep(sweep: Sweep, p: Q.Pool, k: nat, current: seq<nat>, found: bool, capacity: nat)
    requires IsSweep(sweep, p) && sweep(k, current, found, capacity) && k < |current|
    requires forall j :: 0 <= j < |p.registered| ==> p.registered[j] < |p.batches|
    ensures current[k] < |p.batches|
    ensures !Q.Live(p, current[k]) ==> sweep(k, current[..k] + current[k + 1..], found, capacity)
    ensures Q.Live(p, current[k]) ==>
              sweep(k + 1, current, true, Least(found, capacity, p.batches[current[k]].hostBudget))
  {
    assert SweepIs(sweep, p, k, current, found, capacity);
    var seen: nat :| Swept(p, seen, k, current, found, capacity);
    assert seen < |p.registered| by {
      assert p.registered[|p.registered|..] == [];
    }
    StepOver(Q.PruneFirst(p, p.registered, seen), p.registered, seen);
    LeastStep(p, seen, found, capacity);
    if Q.Live(p, current[k]) {
      var least := Least(found, capacity, p.batches[current[k]].hostBudget);
      assert Swept(p, seen + 1, k + 1, current, true, least);
      assert SweepIs(sweep, p, k + 1, current, true, least);
    } else {
      assert Swept(p, seen + 1, k, current[..k] + current[k + 1..], found, capacity);
      assert SweepIs(sweep, p, k, current[..k] + current[k + 1..], found, capacity);
    }
  }

  lemma SweepEnds(sweep: Sweep, p: Q.Pool, current: seq<nat>, found: bool, capacity: nat)
    requires IsSweep(sweep, p) && sweep(|current|, current, found, capacity)
    ensures current == Q.Prune(p, p.registered) && Q.IsCapacity(p, if found then capacity else 1)
  {
    assert SweepIs(sweep, p, |current|, current, found, capacity);
    var seen: nat :| Swept(p, seen, |current|, current, found, capacity);
    assert seen == |p.registered| && p.registered[seen..] == [];
    LeastIsCapacity(p, found, capacity);
  }

  class Executor {
    var queue: seq<Q.Entry>
    var batches: seq<Q.Batch>
    var registered: seq<nat>
    var activeCodecThreads: int
    /** Threads started so far; they run until the executor is destroyed. */
    var workers: nat

    function Pool(): Q.Pool
      reads this
    {
      Q.Pool(queue, batches, registered, activeCodecThreads)
    }

    ghost predicate InBounds()
      reads this
    {
      && (forall k :: 0 <= k < |registered| ==> registered[k] < |batches|)
      && (forall k :: 0 <= k < |queue| ==> queue[k].batch < |batches|)
    }

    constructor ()
      ensures Pool() == Q.Pool([], [], [], 0) && workers == 0
    {
      queue, batches, registered, activeCodecThreads, workers := [], [], [], 0, 0;
    }

    /** Smallest host budget of the unfinished batches; finished ones are dropped from the list. */
    method GlobalCodecCapacityLocked() returns (capacity: nat)
      requires InBounds()
      modifies this`registered
      ensures registered == Q.Prune(old(Pool()), old(registered))
      ensures Q.IsCapacity(old(Pool()), capacity)
    {
      ghost var p := Pool();
      var found, k := false, 0;
      capacity := 0;
      ghost var sweep := SweepBegins(p);
      while k < |registered|
        invariant sweep(k, registered, found, capacity) && k <= |registered|
        decreases |registered| - k
      {
        SweepStep(sweep, p, k, registered, found, capacity);
        var b := registered[k];
        if batches[b].remaining == 0 {
          registered := registered[..k] + registered[k + 1..];
        } else {
          capacity := Least(found, capacity, batches[b].hostBudget);
          found := true;
          k := k + 1;
        }
      }
      SweepEnds(sweep, p, registered, found, capacity);
      if !found {
        capacity := 1;
      }
    }

    /** Workers worth having: what the live batches can use, up to the largest of their host budgets. */
    method DesiredWorkerCountLocked() returns (desired: nat)
      requires InBounds() && forall b :: 0 <= b < |batches| ==> batches[b].remaining >= 0
      ensures Q.IsDesired(Pool(), desired)
    {
      var capacity := LargestBudget();
      desired := 0;
      for k := 0 to |registered|
        invariant desired == Q.Wanted(Pool(), k) && (desired < capacity || desired == 0)
      {
        var batch := batches[registered[k]];
        if batch.remaining != 0 {
          var workers := if batch.maxWorkers < batch.remaining then batch.maxWorkers else batch.remaining;
          if workers >= capacity - desired {
            Q.WantedGrows(Pool(), k + 1, |registered|);
            return capacity;
          }
          desired := desired + workers;
        }
      }
    }

    method LargestBudget() returns (capacity: nat)
      requires InBounds()
      ensures Q.IsLargestBudget(Pool(), capacity)
    {
      capacity := 0;
      for k := 0 to |registered|
        invariant forall j :: 0 <= j < k && Q.Live(Pool(), registered[j]) ==> batches[registered[j]].hostBudget <= capacity
        invariant capacity == 0 || exists j :: 0 <= j < k && Q.Live(Pool(), registered[j])
                                               && batches[registered[j]].hostBudget == capacity
      {
        var batch := batches[registered[k]];
        if batch.remaining != 0 && batch.hostBudget > capacity {
          capacity := batch.hostBudget;
          assert Q.Live(Pool(), registered[k]);
        }
      }
    }

    /** Start the workers that are missing. */
    method EnsureWorkersLocked()
      requires InBounds() && forall b :: 0 <= b < |batches| ==> batches[b].remaining >= 0
      modifies this`workers
      ensures workers >= old(workers) && Q.StartsWorkers(Pool(), old(workers), workers - old(workers))
    {
      var desired := DesiredWorkerCountLocked();
      while workers < desired
        invariant workers == old(workers) || workers <= desired
        invariant workers >= old(workers)
      {
        workers := workers + 1;
      }
    }

    /** Take the first queued job that is cancelled or fits the budgets. */
    method TryTakeJobLocked() returns (taken: Q.Taken, ghost capacity: nat)
      requires InBounds()
      modifies this
      ensures Q.IsCapacity(old(Pool()), capacity)
      ensures (Pool(), taken) == Q.TryTake(old(Pool()), capacity)
    {
      var globalCapacity := GlobalCodecCapacityLocked();
      capacity := globalCapacity;
      ghost var p := Pool();
      var k := 0;
      while k < |queue|
        invariant k <= |queue| && Pool() == p && forall j :: 0 <= j < |queue| ==> queue[j].batch < |batches|
        invariant Q.FirstTakeable(p, capacity, 0) == Q.FirstTakeable(p, capacity, k)
      {
        var e := queue[k];
        var batch := batches[e.batch];
        if !batch.cancelled
           && (batch.activeWorkers >= batch.maxWorkers || batch.activeThreads + e.threads > batch.threadBudget
               || activeCodecThreads + e.threads > globalCapacity) {
          k := k + 1;
          continue;
        }
        taken := TakeQueued(k);
        return;
      }
      taken := Q.Nothing;
    }

    /** Take a queued job; unless its batch is cancelled, its budget is counted as used. */
    method TakeQueued(k: nat) returns (taken: Q.Taken)
      requires k < |queue| && queue[k].batch < |batches|
      modifies this`queue, this`batches, this`activeCodecThreads
      ensures (Pool(), taken) == Q.TakeAt(old(Pool()), k)
    {
      var e := queue[k];
      var batch := batches[e.batch];
      if !batch.cancelled {
        batches := batches[e.batch := batch.(activeWorkers := batch.activeWorkers + 1,
                                             activeThreads := batch.activeThreads + e.threads)];
        activeCodecThreads := activeCodecThreads + e.threads;
      }
      queue := Q.Without(queue, k);
      taken := Q.Job(e, !batch.cancelled);
    }

    /** Drop the queued jobs of a cancelled batch. */
    method DiscardQueuedJobs(b: nat) returns (discarded: nat)
      requires b < |batches|
      modifies this`queue, this`batches
      ensures (Pool(), discarded) == Q.DiscardQueued(old(Pool()), b)
    {
      ghost var all, seen, done := queue, 0, [];
      var k := 0;
      discarded := 0;
      while k < |queue|
        invariant seen <= |all| && done == Q.WithoutBatch(all, b, seen) && k == |done| && batches == old(batches)
        invariant queue == done + all[seen..] && discarded == |all| - |queue|
        decreases |all| - seen
      {
        StepOver(done, all, seen);
        if queue[k].batch == b {
          queue := queue[..k] + queue[k + 1..];
          discarded := discarded + 1;
        } else {
          k := k + 1;
          done := done + [all[seen]];
        }
        seen := seen + 1;
      }
      assert seen == |all| && all[seen..] == [] && done + [] == done;
      batches := batches[b := batches[b].(remaining := batches[b].remaining - discarded)];
    }

    method CountDiscardedJobs(b: nat, discarded: nat)
      requires b < |batches|
      modifies this`batches
      ensures Pool() == Q.CountDiscarded(old(Pool()), b, discarded)
    {
      batches := batches[b := batches[b].(completed := batches[b].completed + discarded)];
    }

    /** Cancel the batch for a failed job; true for the first to do so, who then sets the error. */
    method ExchangeCancelled(b: nat) returns (first: bool)
      requires b < |batches|
      modifies this`batches
      ensures Pool() == Q.Cancel(old(Pool()), b) && first == !old(batches)[b].cancelled
    {
      first := !batches[b].cancelled;
      batches := batches[b := batches[b].(cancelled := true)];
    }

    method SetError(b: nat, error: nat)
      requires b < |batches|
      modifies this`batches
      ensures Pool() == Q.SetError(old(Pool()), b, error)
    {
      batches := batches[b := batches[b].(error := Some(error))];
    }

    /** Give back what the job reserved. */
    method ReleaseBudget(e: Q.Entry, reserved: bool)
      requires e.batch < |batches|
      modifies this`batches, this`activeCodecThreads
      ensures Pool() == Q.GiveBack(old(Pool()), e, reserved)
    {
      var batch := batches[e.batch];
      if reserved {
        batch := batch.(activeWorkers := batch.activeWorkers - 1, activeThreads := batch.activeThreads - e.threads);
        activeCodecThreads := activeCodecThreads - e.threads;
      }
      batches := batches[e.batch := batch.(remaining := batch.remaining - 1)];
    }

    /** Store the result unless the batch was cancelled, and count the job as completed. */
    method PublishResult(e: Q.Entry, encoded: Option<nat>)
      requires e.batch < |batches| && e.job < |batches[e.batch].results|
      modifies this`batches
      ensures Pool() == Q.Publish(old(Pool()), e, encoded)
    {
      var batch := batches[e.batch];
      if encoded.Some? && !batch.cancelled {
        batch := batch.(results := batch.results[e.job := encoded]);
      }
      batches := batches[e.batch := batch.(completed := batch.completed + 1)];
    }

    /** First section of Execute; false when the budget is invalid. An empty list of jobs needs no batch. */
    method Enqueue(jobs: seq<nat>, maxWorkers: nat, codecThreadBudget: nat, hostThreadBudget: nat) returns (ok: bool)
      requires InBounds() && forall b :: 0 <= b < |batches| ==> batches[b].remaining >= 0
      modifies this
      ensures ok <==> |jobs| == 0 || Q.ValidBudget(maxWorkers, codecThreadBudget, hostThreadBudget)
      ensures ok && |jobs| > 0 ==>
                && Pool() == Q.Enqueue(old(Pool()), jobs, maxWorkers, codecThreadBudget, hostThreadBudget)
                && workers >= old(workers) && Q.StartsWorkers(Pool(), old(workers), workers - old(workers))
      ensures !ok || |jobs| == 0 ==> Pool() == old(Pool()) && workers == old(workers)
    {
      if |jobs| == 0 {
        return true;
      }
      if maxWorkers == 0 || codecThreadBudget == 0 || codecThreadBudget > hostThreadBudget {
        return false;
      }
      AddBatch(jobs, maxWorkers, codecThreadBudget, hostThreadBudget);
      EnsureWorkersLocked();
      ok := true;
    }

    /** Register the batch and queue its jobs. */
    method AddBatch(jobs: seq<nat>, maxWorkers: nat, codecThreadBudget: nat, hostThreadBudget: nat)
      requires |jobs| > 0 && Q.ValidBudget(maxWorkers, codecThreadBudget, hostThreadBudget)
      modifies this`queue, this`batches, this`registered
      ensures Pool() == Q.Enqueue(old(Pool()), jobs, maxWorkers, codecThreadBudget, hostThreadBudget)
    {
      var used := if maxWorkers < |jobs| then maxWorkers else |jobs|;
      used := if used < codecThreadBudget then used else codecThreadBudget;
      var base, extra := codecThreadBudget / used, codecThreadBudget % used;
      var b := |batches|;
      registered := registered + [b];
      batches := batches + [Q.NewBatch(jobs, used, codecThreadBudget, hostThreadBudget)];
      ghost var before, entries := queue, Q.Entries(b, |jobs|, used, codecThreadBudget);
      for job := 0 to |jobs|
        invariant queue == before + entries[..job]
        invariant registered == old(registered) + [b]
        invariant batches == old(batches) + [Q.NewBatch(jobs, used, codecThreadBudget, hostThreadBudget)]
      {
        var slot := job % used;
        var threads := base + if slot < extra then 1 else 0;
        queue := queue + [Q.Entry(b, job, threads)];
        assert entries[..job + 1] == entries[..job] + [entries[job]];
      }
      assert entries[..|jobs|] == entries;
    }
  }
}
