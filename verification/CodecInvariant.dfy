/** Every step of the codec executor keeps its invariant. */
module CodecInvariant {
  import opened Collections
  import opened CodecPool
  import opened CodecRuns
  import opened Sums

  // How the counts change ----------------------------------------------------------------------------

  lemma WorkerCounts(s: System, r: System, w: nat, b: nat)
    requires w < |s.workers| == |r.workers| && r.workers == s.workers[w := r.workers[w]]
    ensures CountWorkers(FlightOf(b), r) + FlightOf(b)(s.workers[w]) == CountWorkers(FlightOf(b), s) + FlightOf(b)(r.workers[w])
    ensures CountWorkers(HeldOf(b), r) + HeldOf(b)(s.workers[w]) == CountWorkers(HeldOf(b), s) + HeldOf(b)(r.workers[w])
    ensures CountWorkers(ActiveOf(b), r) + ActiveOf(b)(s.workers[w]) == CountWorkers(ActiveOf(b), s) + ActiveOf(b)(r.workers[w])
    ensures CountWorkers(ThreadsOf(b), r) + ThreadsOf(b)(s.workers[w]) == CountWorkers(ThreadsOf(b), s) + ThreadsOf(b)(r.workers[w])
    ensures CountWorkers(RaisingOf(b), r) + RaisingOf(b)(s.workers[w]) == CountWorkers(RaisingOf(b), s) + RaisingOf(b)(r.workers[w])
  {
    TotalUpdate(FlightOf(b), s.workers, |s.workers|, w, r.workers[w]);
    TotalUpdate(HeldOf(b), s.workers, |s.workers|, w, r.workers[w]);
    TotalUpdate(ActiveOf(b), s.workers, |s.workers|, w, r.workers[w]);
    TotalUpdate(ThreadsOf(b), s.workers, |s.workers|, w, r.workers[w]);
    TotalUpdate(RaisingOf(b), s.workers, |s.workers|, w, r.workers[w]);
  }

  lemma WorkerKeys(s: System, r: System, w: nat, key: (nat, nat))
    requires w < |s.workers| == |r.workers| && r.workers == s.workers[w := r.workers[w]]
    ensures CountWorkers(FlightKey(key), r) + FlightKey(key)(s.workers[w]) == CountWorkers(FlightKey(key), s) + FlightKey(key)(r.workers[w])
  {
    TotalUpdate(FlightKey(key), s.workers, |s.workers|, w, r.workers[w]);
  }

  lemma WorkerThreads(s: System, r: System, w: nat)
    requires w < |s.workers| == |r.workers| && r.workers == s.workers[w := r.workers[w]]
    ensures CountWorkers(ThreadsIn, r) + ThreadsIn(s.workers[w]) == CountWorkers(ThreadsIn, s) + ThreadsIn(r.workers[w])
  {
    TotalUpdate(ThreadsIn, s.workers, |s.workers|, w, r.workers[w]);
  }

  /** A busy worker is among those counted. */
  lemma WorkerIsCounted(s: System, w: nat)
    requires w < |s.workers| && s.workers[w].Busy?
    ensures var b := s.workers[w].entry.batch;
            && FlightOf(b)(s.workers[w]) <= CountWorkers(FlightOf(b), s)
            && HeldOf(b)(s.workers[w]) <= CountWorkers(HeldOf(b), s)
            && FlightKey(Key(s.workers[w].entry))(s.workers[w]) <= CountWorkers(FlightKey(Key(s.workers[w].entry)), s)
  {
    var b := s.workers[w].entry.batch;
    TotalAtLeast(FlightOf(b), s.workers, |s.workers|, w);
    TotalAtLeast(HeldOf(b), s.workers, |s.workers|, w);
    TotalAtLeast(FlightKey(Key(s.workers[w].entry)), s.workers, |s.workers|, w);
  }

  // Steps of a worker that keep its job --------------------------------------------------------------

  /** What such a step may do to its batch: cancel it, set its error, or give back the job's budget. */
  ghost predicate SameJob(s: System, r: System, w: nat) {
    && w < |s.workers| == |r.workers| && r.workers == s.workers[w := r.workers[w]]
    && s.workers[w].Busy? && r.workers[w].Busy?
    && r.workers[w].entry == s.workers[w].entry && r.workers[w].reserved == s.workers[w].reserved
    && r.pool.queue == s.pool.queue && r.pool.registered == s.pool.registered
    && r.callers == s.callers && r.settled == s.settled
    && |r.pool.batches| == |s.pool.batches|
    && (forall b: nat :: BatchKept(s, r, b))
  }

  ghost predicate BatchKept(s: System, r: System, b: nat) {
    b < |s.pool.batches| == |r.pool.batches| ==>
      var x, y := s.pool.batches[b], r.pool.batches[b];
      && x.jobs == y.jobs && x.maxWorkers == y.maxWorkers && x.threadBudget == y.threadBudget && x.hostBudget == y.hostBudget
      && x.results == y.results && x.completed == y.completed && (x.cancelled ==> y.cancelled)
  }

  lemma SameJobKeys(s: System, r: System, w: nat, key: (nat, nat))
    requires SameJob(s, r, w) && KeyOk(s, key)
    ensures KeyOk(r, key)
  {
    WorkerKeys(s, r, w, key);
    assert BatchKept(s, r, key.0);
  }

  lemma SameJobResults(c: Config, s: System, r: System, w: nat, key: (nat, nat))
    requires SameJob(s, r, w) && ResultOk(c, s, key)
    ensures ResultOk(c, r, key)
  {
    assert BatchKept(s, r, key.0);
  }

  lemma SameJobEntries(s: System, r: System, w: nat, e: Entry)
    requires SameJob(s, r, w) && EntryOk(s, e)
    ensures EntryOk(r, e)
  {
    assert BatchKept(s, r, e.batch);
  }

  lemma SameJobWorkers(c: Config, s: System, r: System, w: nat, v: nat)
    requires SameJob(s, r, w) && WorkerOk(c, s, v) && v != w
    ensures WorkerOk(c, r, v)
  {
    if v < |s.workers| && s.workers[v].Busy? {
      SameJobEntries(s, r, w, s.workers[v].entry);
      assert BatchKept(s, r, s.workers[v].entry.batch);
    }
  }

  /** All that is left to show for such a step. */
  lemma SameJobOk(c: Config, s: System, r: System, w: nat)
    requires Inv(c, s) && SameJob(s, r, w) && PoolOk(r) && WorkerOk(c, r, w)
    requires forall b: nat :: BudgetOk(r, b) && CountsOk(r, b) && CallerOk(r, b) && RegisteredOk(r, b)
    ensures Inv(c, r)
  {
    forall key ensures KeyOk(r, key) {
      assert KeyOk(s, key);
      SameJobKeys(s, r, w, key);
    }
    forall key ensures ResultOk(c, r, key) {
      assert ResultOk(c, s, key);
      SameJobResults(c, s, r, w, key);
    }
    forall i: nat ensures QueueEntryOk(r, i) {
      assert QueueEntryOk(s, i);
      if i < |s.pool.queue| {
        SameJobEntries(s, r, w, s.pool.queue[i]);
      }
    }
    forall v: nat ensures WorkerOk(c, r, v) {
      assert WorkerOk(c, s, v);
      if v != w {
        SameJobWorkers(c, s, r, w, v);
      }
    }
  }

  /** A change of stage before the budget is given back, which at most cancels or fails the batch. */
  ghost predicate StageOnly(s: System, r: System, w: nat) {
    && SameJob(s, r, w)
    && s.workers[w].stage != Publishing && r.workers[w].stage != Publishing
    && r.pool.activeThreads == s.pool.activeThreads
    && forall b: nat :: CountsKept(s, r, b)
  }

  ghost predicate CountsKept(s: System, r: System, b: nat) {
    b < |s.pool.batches| == |r.pool.batches| ==>
      var x, y := s.pool.batches[b], r.pool.batches[b];
      y == x.(cancelled := y.cancelled, error := y.error)
  }

  lemma StageOnlyBudgets(s: System, r: System, w: nat, b: nat)
    requires StageOnly(s, r, w) && BudgetOk(s, b) && CountsOk(s, b) && RegisteredOk(s, b)
    ensures BudgetOk(r, b) && CountsOk(r, b) && RegisteredOk(r, b)
  {
    WorkerCounts(s, r, w, b);
    assert CountsKept(s, r, b);
  }

  lemma StageOnlyOk(c: Config, s: System, r: System, w: nat)
    requires Inv(c, s) && StageOnly(s, r, w) && WorkerOk(c, r, w)
    requires forall b: nat :: CallerOk(r, b)
    ensures Inv(c, r)
  {
    WorkerThreads(s, r, w);
    forall b: nat ensures BudgetOk(r, b) && CountsOk(r, b) && CallerOk(r, b) && RegisteredOk(r, b) {
      assert BudgetOk(s, b) && CountsOk(s, b) && RegisteredOk(s, b);
      StageOnlyBudgets(s, r, w, b);
    }
    SameJobOk(c, s, r, w);
  }

  lemma EncodeOk(c: Config, s: System, w: nat, failure: Option<nat>)
    requires Inv(c, s) && Enabled(s, Encode(w, failure))
    ensures Inv(c, Next(c, s, Encode(w, failure)))
  {
    var r := Next(c, s, Encode(w, failure));
    assert WorkerOk(c, s, w);
    forall b: nat ensures CallerOk(r, b) {
      assert CallerOk(s, b);
      WorkerCounts(s, r, w, b);
    }
    StageOnlyOk(c, s, r, w);
  }

  lemma ExchangeOk(c: Config, s: System, w: nat)
    requires Inv(c, s) && Enabled(s, Exchange(w))
    ensures Inv(c, Next(c, s, Exchange(w)))
  {
    var r := Next(c, s, Exchange(w));
    assert WorkerOk(c, s, w);
    forall b: nat ensures CallerOk(r, b) {
      assert CallerOk(s, b);
      WorkerCounts(s, r, w, b);
    }
    StageOnlyOk(c, s, r, w);
  }

  lemma RaiseOk(c: Config, s: System, w: nat)
    requires Inv(c, s) && Enabled(s, Raise(w))
    ensures Inv(c, Next(c, s, Raise(w)))
  {
    var r := Next(c, s, Raise(w));
    assert WorkerOk(c, s, w);
    forall b: nat ensures CallerOk(r, b) {
      assert CallerOk(s, b);
      WorkerCounts(s, r, w, b);
    }
    StageOnlyOk(c, s, r, w);
  }

  lemma ReleaseBatch(c: Config, s: System, w: nat, b: nat)
    requires Enabled(s, Release(w)) && BudgetOk(s, b) && CountsOk(s, b) && CallerOk(s, b) && RegisteredOk(s, b)
    requires |s.callers| == |s.pool.batches|
    ensures var r := Next(c, s, Release(w)); BudgetOk(r, b) && CountsOk(r, b) && CallerOk(r, b) && RegisteredOk(r, b)
  {
    WorkerCounts(s, Next(c, s, Release(w)), w, b);
  }

  lemma ReleaseOk(c: Config, s: System, w: nat)
    requires Inv(c, s) && Enabled(s, Release(w))
    ensures Inv(c, Next(c, s, Release(w)))
  {
    var r := Next(c, s, Release(w));
    assert WorkerOk(c, s, w);
    WorkerThreads(s, r, w);
    forall b: nat ensures BudgetOk(r, b) && CountsOk(r, b) && CallerOk(r, b) && RegisteredOk(r, b) {
      assert BudgetOk(s, b) && CountsOk(s, b) && CallerOk(s, b) && RegisteredOk(s, b);
      ReleaseBatch(c, s, w, b);
    }
    SameJobOk(c, s, r, w);
  }

  // Publishing ---------------------------------------------------------------------------------------

  lemma PublishKeys(c: Config, s: System, w: nat, key: (nat, nat))
    requires Enabled(s, PublishStep(w)) && KeyOk(s, key)
    ensures KeyOk(Next(c, s, PublishStep(w)), key)
  {
    WorkerKeys(s, Next(c, s, PublishStep(w)), w, key);
  }

  /** A job in flight is not settled yet. */
  lemma InFlightIsNotSettled(s: System, w: nat)
    requires w < |s.workers| && s.workers[w].Busy? && KeyOk(s, Key(s.workers[w].entry))
    ensures s.settled[Key(s.workers[w].entry)] == 0
  {
    WorkerIsCounted(s, w);
  }

  lemma PublishResults(c: Config, s: System, w: nat, key: (nat, nat))
    requires Enabled(s, PublishStep(w)) && ResultOk(c, s, key) && WorkerOk(c, s, w) && KeyOk(s, key)
    requires CountsOk(s, key.0) && PoolOk(s)
    ensures ResultOk(c, Next(c, s, PublishStep(w)), key)
  {
    var worker, r := s.workers[w], Next(c, s, PublishStep(w));
    if key == Key(worker.entry) {
      InFlightIsNotSettled(s, w);
    } else {
      assert r.settled[key] == s.settled[key];
      assert key in r.settled <==> key in s.settled;
    }
  }

  lemma PublishWorkers(c: Config, s: System, w: nat, v: nat)
    requires Enabled(s, PublishStep(w)) && WorkerOk(c, s, v)
    ensures WorkerOk(c, Next(c, s, PublishStep(w)), v)
  {
  }

  lemma PublishBatch(c: Config, s: System, w: nat, b: nat)
    requires Inv(c, s) && Enabled(s, PublishStep(w))
    ensures var r := Next(c, s, PublishStep(w)); BudgetOk(r, b) && CountsOk(r, b) && CallerOk(r, b) && RegisteredOk(r, b)
  {
    assert WorkerOk(c, s, w);
    assert BudgetOk(s, b) && CountsOk(s, b) && CallerOk(s, b) && RegisteredOk(s, b);
    WorkerCounts(s, Next(c, s, PublishStep(w)), w, b);
  }

  lemma PublishOk(c: Config, s: System, w: nat)
    requires Inv(c, s) && Enabled(s, PublishStep(w))
    ensures Inv(c, Next(c, s, PublishStep(w)))
  {
    var r := Next(c, s, PublishStep(w));
    assert WorkerOk(c, s, w);
    WorkerThreads(s, r, w);
    forall b: nat ensures BudgetOk(r, b) && CountsOk(r, b) && CallerOk(r, b) && RegisteredOk(r, b) {
      PublishBatch(c, s, w, b);
    }
    forall key ensures KeyOk(r, key) && ResultOk(c, r, key) {
      assert KeyOk(s, key) && ResultOk(c, s, key) && CountsOk(s, key.0);
      PublishKeys(c, s, w, key);
      PublishResults(c, s, w, key);
    }
    forall i: nat ensures QueueEntryOk(r, i) {
      assert QueueEntryOk(s, i);
    }
    forall v: nat ensures WorkerOk(c, r, v) {
      assert WorkerOk(c, s, v);
      PublishWorkers(c, s, w, v);
    }
  }

  // Taking a job -------------------------------------------------------------------------------------

  /** The queue and the batches after job i was taken, in terms of what is counted. */
  lemma TakenCounts(queue: seq<Entry>, i: nat, f: Entry -> nat)
    requires i < |queue|
    ensures Total(f, Without(queue, i), |queue| - 1) + f(queue[i]) == Total(f, queue, |queue|)
  {
    TotalSplit(f, queue, i);
  }

  ghost predicate TakesJob(s: System, r: System, w: nat, i: nat, reserved: bool) {
    && w < |s.workers| && s.workers[w].Idle? && i < |s.pool.queue|
    && s.pool.queue[i].batch < |s.pool.batches|
    && reserved == !s.pool.batches[s.pool.queue[i].batch].cancelled
    && var e := s.pool.queue[i];
       var base := s.pool.(queue := Without(s.pool.queue, i), registered := Prune(s.pool, s.pool.registered));
       r == WithWorker(s, if reserved then Reserve(base, e) else base, w, Busy(Encoding, e, reserved, NotRun))
  }

  lemma TakeShape(c: Config, s: System, w: nat, capacity: nat)
    requires Inv(c, s) && Enabled(s, Take(w, capacity)) && TryTake(s.pool, capacity).1.Job?
    ensures var pruned := s.pool.(registered := Prune(s.pool, s.pool.registered));
            var i := FirstTakeable(pruned, capacity, 0);
            && i < |s.pool.queue| && s.pool.queue[i].batch < |s.pool.batches|
            && (!s.pool.batches[s.pool.queue[i].batch].cancelled ==> CanReserve(pruned, capacity, s.pool.queue[i]))
            && TakesJob(s, Next(c, s, Take(w, capacity)), w, i, !s.pool.batches[s.pool.queue[i].batch].cancelled)
  {
    var pruned := s.pool.(registered := Prune(s.pool, s.pool.registered));
    var i := FirstTakeable(pruned, capacity, 0);
    assert QueueEntryOk(s, i);
  }

  lemma TakesBatch(s: System, r: System, w: nat, i: nat, reserved: bool, b: nat)
    requires TakesJob(s, r, w, i, reserved) && PoolOk(s)
    requires BudgetOk(s, b) && CountsOk(s, b) && CallerOk(s, b) && RegisteredOk(s, b)
    requires reserved ==> CanReserve(s.pool, s.pool.activeThreads + s.pool.queue[i].threads, s.pool.queue[i])
    ensures BudgetOk(r, b) && CountsOk(r, b) && CallerOk(r, b) && RegisteredOk(r, b)
  {
    WorkerCounts(s, r, w, b);
    TakenCounts(s.pool.queue, i, QueuedOf(b));
    PruneIs(s.pool, s.pool.registered);
  }

  lemma TakesKey(c: Config, s: System, r: System, w: nat, i: nat, reserved: bool, key: (nat, nat))
    requires TakesJob(s, r, w, i, reserved) && KeyOk(s, key) && ResultOk(c, s, key)
    ensures KeyOk(r, key) && ResultOk(c, r, key)
  {
    WorkerKeys(s, r, w, key);
    TakenCounts(s.pool.queue, i, QueuedKey(key));
  }

  lemma TakesEntry(s: System, r: System, w: nat, i: nat, reserved: bool, e: Entry)
    requires TakesJob(s, r, w, i, reserved) && EntryOk(s, e)
    ensures EntryOk(r, e)
  {
  }

  lemma TakesQueueEntry(s: System, r: System, w: nat, i: nat, reserved: bool, k: nat)
    requires TakesJob(s, r, w, i, reserved) && QueueEntryOk(s, k) && QueueEntryOk(s, k + 1)
    ensures QueueEntryOk(r, k)
  {
    if k < |r.pool.queue| {
      TakesEntry(s, r, w, i, reserved, r.pool.queue[k]);
    }
  }

  lemma TakesWorker(c: Config, s: System, r: System, w: nat, i: nat, reserved: bool, v: nat)
    requires TakesJob(s, r, w, i, reserved) && WorkerOk(c, s, v) && QueueEntryOk(s, i)
    ensures WorkerOk(c, r, v)
  {
    if v < |r.workers| && r.workers[v].Busy? {
      TakesEntry(s, r, w, i, reserved, r.workers[v].entry);
    }
  }

  lemma TakesOk(c: Config, s: System, r: System, w: nat, i: nat, reserved: bool)
    requires Inv(c, s) && TakesJob(s, r, w, i, reserved)
    requires reserved ==> CanReserve(s.pool, s.pool.activeThreads + s.pool.queue[i].threads, s.pool.queue[i])
    ensures Inv(c, r)
  {
    WorkerThreads(s, r, w);
    PruneIs(s.pool, s.pool.registered);
    forall b: nat ensures BudgetOk(r, b) && CountsOk(r, b) && CallerOk(r, b) && RegisteredOk(r, b) {
      assert BudgetOk(s, b) && CountsOk(s, b) && CallerOk(s, b) && RegisteredOk(s, b);
      TakesBatch(s, r, w, i, reserved, b);
    }
    forall key ensures KeyOk(r, key) && ResultOk(c, r, key) {
      assert KeyOk(s, key) && ResultOk(c, s, key);
      TakesKey(c, s, r, w, i, reserved, key);
    }
    forall k: nat ensures QueueEntryOk(r, k) {
      assert QueueEntryOk(s, k) && QueueEntryOk(s, k + 1);
      TakesQueueEntry(s, r, w, i, reserved, k);
    }
    forall v: nat ensures WorkerOk(c, r, v) {
      assert WorkerOk(c, s, v) && QueueEntryOk(s, i);
      TakesWorker(c, s, r, w, i, reserved, v);
    }
  }

  /** Looking for a job in vain drops finished batches from the list. */
  lemma VainTakeOk(c: Config, s: System, w: nat, capacity: nat)
    requires Inv(c, s) && Enabled(s, Take(w, capacity)) && TryTake(s.pool, capacity).1.Nothing?
    ensures Inv(c, Next(c, s, Take(w, capacity)))
  {
    var r := Next(c, s, Take(w, capacity));
    assert r.workers == s.workers;
    PruneIs(s.pool, s.pool.registered);
    assert r == s.(pool := s.pool.(registered := Prune(s.pool, s.pool.registered)));
    forall b: nat ensures BudgetOk(r, b) && CountsOk(r, b) && CallerOk(r, b) && RegisteredOk(r, b) {
      assert BudgetOk(s, b) && CountsOk(s, b) && CallerOk(s, b) && RegisteredOk(s, b);
    }
    forall key ensures KeyOk(r, key) && ResultOk(c, r, key) {
      assert KeyOk(s, key) && ResultOk(c, s, key);
    }
    forall k: nat ensures QueueEntryOk(r, k) {
      assert QueueEntryOk(s, k);
    }
    forall v: nat ensures WorkerOk(c, r, v) {
      assert WorkerOk(c, s, v);
    }
  }

  lemma TakeOk(c: Config, s: System, w: nat, capacity: nat)
    requires Inv(c, s) && Enabled(s, Take(w, capacity))
    ensures Inv(c, Next(c, s, Take(w, capacity)))
  {
    if TryTake(s.pool, capacity).1.Nothing? {
      VainTakeOk(c, s, w, capacity);
    } else {
      TakeShape(c, s, w, capacity);
      var i := FirstTakeable(s.pool.(registered := Prune(s.pool, s.pool.registered)), capacity, 0);
      TakesOk(c, s, Next(c, s, Take(w, capacity)), w, i, !s.pool.batches[s.pool.queue[i].batch].cancelled);
    }
  }

  // Steps of an Execute call -------------------------------------------------------------------------

  /** The call of batch b changes its batch's cancellation and completion, and how far it is itself. */
  ghost predicate CallerStep(s: System, r: System, b: nat) {
    && b < |s.callers| == |s.pool.batches| && b < |r.callers| && b < |r.pool.batches|
    && r.workers == s.workers && r.settled == s.settled && r.callers == s.callers[b := r.callers[b]]
    && r.pool == s.pool.(batches := s.pool.batches[b := r.pool.batches[b]])
    && r.pool.batches[b] == s.pool.batches[b].(cancelled := r.pool.batches[b].cancelled, completed := r.pool.batches[b].completed)
    && (s.pool.batches[b].cancelled ==> r.pool.batches[b].cancelled)
    && r.pool.batches[b].completed + DiscardingCount(r.callers[b]) == s.pool.batches[b].completed + DiscardingCount(s.callers[b])
  }

  lemma CallerStepBatch(s: System, r: System, b: nat, k: nat)
    requires 0 <= b < |r.pool.batches| && b < |r.callers| && CallerStep(s, r, b)
    requires BudgetOk(s, k) && CountsOk(s, k) && RegisteredOk(s, k)
    ensures BudgetOk(r, k) && CountsOk(r, k) && RegisteredOk(r, k)
  {
  }

  lemma CallerStepOk(c: Config, s: System, r: System, b: nat)
    requires Inv(c, s) && b < |r.pool.batches| && b < |r.callers| && CallerStep(s, r, b) && CallerOk(r, b)
    ensures Inv(c, r)
  {
    forall k: nat ensures BudgetOk(r, k) && CountsOk(r, k) && RegisteredOk(r, k) && CallerOk(r, k) {
      assert BudgetOk(s, k) && CountsOk(s, k) && RegisteredOk(s, k) && CallerOk(s, k);
      CallerStepBatch(s, r, b, k);
    }
    forall key ensures KeyOk(r, key) && ResultOk(c, r, key) {
      assert KeyOk(s, key) && ResultOk(c, s, key);
    }
    forall i: nat ensures QueueEntryOk(r, i) {
      assert QueueEntryOk(s, i);
    }
    forall v: nat ensures WorkerOk(c, r, v) {
      assert WorkerOk(c, s, v);
    }
  }

  lemma InterruptOk(c: Config, s: System, b: nat)
    requires Inv(c, s) && Enabled(s, Interrupt(b))
    ensures Inv(c, Next(c, s, Interrupt(b)))
  {
    assert CallerOk(s, b);
    CallerStepOk(c, s, Next(c, s, Interrupt(b)), b);
  }

  lemma CountOk(c: Config, s: System, b: nat)
    requires Inv(c, s) && Enabled(s, Count(b))
    ensures Inv(c, Next(c, s, Count(b)))
  {
    assert CallerOk(s, b);
    CallerStepOk(c, s, Next(c, s, Count(b)), b);
  }

  lemma FinishOk(c: Config, s: System, b: nat, late: bool)
    requires Inv(c, s) && Enabled(s, Finish(b, late))
    ensures Inv(c, Next(c, s, Finish(b, late)))
  {
    assert CallerOk(s, b) && CountsOk(s, b);
    CallerStepOk(c, s, Next(c, s, Finish(b, late)), b);
  }

  // Discarding ---------------------------------------------------------------------------------------

  lemma {:induction false} OthersStayQueued(queue: seq<Entry>, b: nat, f: Entry -> nat, n: nat)
    requires n <= |queue| && forall e: Entry :: e.batch == b ==> f(e) == 0
    ensures Total(f, WithoutBatch(queue, b, n), |WithoutBatch(queue, b, n)|) == Total(f, queue, n)
  {
    if n > 0 {
      OthersStayQueued(queue, b, f, n - 1);
      if queue[n - 1].batch != b {
        TotalSnoc(f, WithoutBatch(queue, b, n - 1), queue[n - 1]);
      }
    }
  }

  lemma {:induction false} NoneStaysQueued(queue: seq<Entry>, b: nat, n: nat)
    requires n <= |queue|
    ensures |WithoutBatch(queue, b, n)| + Total(QueuedOf(b), queue, n) == n
  {
    if n > 0 {
      NoneStaysQueued(queue, b, n - 1);
    }
  }

  lemma {:induction false} QueuedKeysCount(queue: seq<Entry>, b: nat, n: nat, key: (nat, nat))
    requires n <= |queue|
    ensures QueuedKeys(queue, b, n)[key] == if key.0 == b then Total(QueuedKey(key), queue, n) else 0
  {
    if n > 0 {
      QueuedKeysCount(queue, b, n - 1, key);
    }
  }

  lemma NothingLeft(queue: seq<Entry>, b: nat, f: Entry -> nat, n: nat)
    requires n <= |queue| && forall e: Entry :: e.batch != b ==> f(e) == 0
    ensures Total(f, WithoutBatch(queue, b, n), |WithoutBatch(queue, b, n)|) == 0
  {
    var left := WithoutBatch(queue, b, n);
    OthersAreLeft(queue, b, n);
    forall i | 0 <= i < |left| ensures f(left[i]) == 0 {
      assert left[i] in left;
    }
    TotalZero(f, left, |left|);
  }

  lemma DiscardBatch(c: Config, s: System, b: nat, k: nat)
    requires Enabled(s, Discard(b)) && PoolOk(s)
    requires BudgetOk(s, k) && CountsOk(s, k) && RegisteredOk(s, k) && CallerOk(s, k)
    ensures var r := Next(c, s, Discard(b)); BudgetOk(r, k) && CountsOk(r, k) && RegisteredOk(r, k) && CallerOk(r, k)
  {
    var n := |s.pool.queue|;
    NoneStaysQueued(s.pool.queue, b, n);
    if k == b {
      NothingLeft(s.pool.queue, b, QueuedOf(b), n);
    } else {
      OthersStayQueued(s.pool.queue, b, QueuedOf(k), n);
    }
  }

  lemma DiscardKey(c: Config, s: System, b: nat, key: (nat, nat))
    requires Enabled(s, Discard(b)) && KeyOk(s, key) && ResultOk(c, s, key)
    ensures var r := Next(c, s, Discard(b)); KeyOk(r, key) && ResultOk(c, r, key)
  {
    var n := |s.pool.queue|;
    QueuedKeysCount(s.pool.queue, b, n, key);
    if key.0 == b {
      NothingLeft(s.pool.queue, b, QueuedKey(key), n);
    } else {
      OthersStayQueued(s.pool.queue, b, QueuedKey(key), n);
      assert key in Next(c, s, Discard(b)).settled <==> key in s.settled;
    }
  }

  lemma DiscardQueueEntry(c: Config, s: System, b: nat, i: nat)
    requires (forall j: nat :: QueueEntryOk(s, j)) && Enabled(s, Discard(b))
    ensures QueueEntryOk(Next(c, s, Discard(b)), i)
  {
    var r, n := Next(c, s, Discard(b)), |s.pool.queue|;
    if i < |r.pool.queue| {
      OthersAreLeft(s.pool.queue, b, n);
      assert r.pool.queue[i] in s.pool.queue[..n];
      var j: nat :| j < n && s.pool.queue[j] == r.pool.queue[i];
      assert QueueEntryOk(s, j);
    }
  }

  lemma DiscardOk(c: Config, s: System, b: nat)
    requires Inv(c, s) && Enabled(s, Discard(b))
    ensures Inv(c, Next(c, s, Discard(b)))
  {
    var r := Next(c, s, Discard(b));
    forall k: nat ensures BudgetOk(r, k) && CountsOk(r, k) && RegisteredOk(r, k) && CallerOk(r, k) {
      assert BudgetOk(s, k) && CountsOk(s, k) && RegisteredOk(s, k) && CallerOk(s, k);
      DiscardBatch(c, s, b, k);
    }
    forall key ensures KeyOk(r, key) && ResultOk(c, r, key) {
      assert KeyOk(s, key) && ResultOk(c, s, key);
      DiscardKey(c, s, b, key);
    }
    forall i: nat ensures QueueEntryOk(r, i) {
      DiscardQueueEntry(c, s, b, i);
    }
    forall v: nat ensures WorkerOk(c, r, v) {
      assert WorkerOk(c, s, v);
    }
  }

  // Submitting a batch -------------------------------------------------------------------------------

  ghost function NewEntries(s: System, step: Step): seq<Entry>
    requires step.Submit? && Enabled(s, step)
  {
    Entries(|s.pool.batches|, |step.jobs|, Workers(|step.jobs|, step.maxWorkers, step.budget), step.budget)
  }

  lemma {:induction false} EntriesOfBatch(entries: seq<Entry>, b: nat, n: nat)
    requires n <= |entries| && forall j :: 0 <= j < n ==> entries[j].batch == b
    ensures Total(QueuedOf(b), entries, n) == n
  {
    if n > 0 {
      EntriesOfBatch(entries, b, n - 1);
    }
  }

  lemma {:induction false} EntriesOfKey(entries: seq<Entry>, b: nat, key: (nat, nat), n: nat)
    requires n <= |entries| && forall j :: 0 <= j < n ==> Key(entries[j]) == (b, j)
    ensures Total(QueuedKey(key), entries, n) == Flag(key.0 == b && key.1 < n)
  {
    if n > 0 {
      EntriesOfKey(entries, b, key, n - 1);
    }
  }

  /** Idle workers count for nothing. */
  lemma StartedWorkers(s: System, r: System, started: nat, f: Worker -> nat)
    requires f(Idle) == 0 && r.workers == s.workers + seq(started, _ => Idle)
    ensures CountWorkers(f, r) == CountWorkers(f, s)
  {
    var added := seq(started, _ => Idle);
    TotalAppend(f, s.workers, added);
    TotalZero(f, added, |added|);
  }

  /** A new batch has nothing in flight. */
  lemma {:induction false} NoWorkersYet(c: Config, s: System, b: nat, f: Worker -> nat, n: nat)
    requires (forall w: nat :: WorkerOk(c, s, w)) && b >= |s.pool.batches| && n <= |s.workers|
    requires f(Idle) == 0 && forall w: Worker :: w.Busy? && w.entry.batch != b ==> f(w) == 0
    ensures Total(f, s.workers, n) == 0
  {
    if n > 0 {
      assert WorkerOk(c, s, n - 1);
      NoWorkersYet(c, s, b, f, n - 1);
    }
  }

  lemma {:induction false} NoEntriesYet(s: System, b: nat, f: Entry -> nat, n: nat)
    requires (forall i: nat :: QueueEntryOk(s, i)) && b >= |s.pool.batches| && n <= |s.pool.queue|
    requires forall e: Entry :: e.batch != b ==> f(e) == 0
    ensures Total(f, s.pool.queue, n) == 0
  {
    if n > 0 {
      assert QueueEntryOk(s, n - 1);
      NoEntriesYet(s, b, f, n - 1);
    }
  }

  lemma SubmitCounts(c: Config, s: System, step: Step, b: nat)
    requires step.Submit? && Enabled(s, step)
    ensures var r := Next(c, s, step);
            && CountWorkers(FlightOf(b), r) == CountWorkers(FlightOf(b), s)
            && CountWorkers(HeldOf(b), r) == CountWorkers(HeldOf(b), s)
            && CountWorkers(ActiveOf(b), r) == CountWorkers(ActiveOf(b), s)
            && CountWorkers(ThreadsOf(b), r) == CountWorkers(ThreadsOf(b), s)
            && CountWorkers(RaisingOf(b), r) == CountWorkers(RaisingOf(b), s)
            && CountQueue(QueuedOf(b), r) == CountQueue(QueuedOf(b), s) + if b == |s.pool.batches| then |step.jobs| else 0
  {
    var r := Next(c, s, step);
    StartedWorkers(s, r, step.started, FlightOf(b));
    StartedWorkers(s, r, step.started, HeldOf(b));
    StartedWorkers(s, r, step.started, ActiveOf(b));
    StartedWorkers(s, r, step.started, ThreadsOf(b));
    StartedWorkers(s, r, step.started, RaisingOf(b));
    var entries := NewEntries(s, step);
    TotalAppend(QueuedOf(b), s.pool.queue, entries);
    if b == |s.pool.batches| {
      EntriesOfBatch(entries, b, |entries|);
    } else {
      TotalZero(QueuedOf(b), entries, |entries|);
    }
  }

  lemma SubmitOldBatch(c: Config, s: System, step: Step, b: nat)
    requires step.Submit? && Enabled(s, step) && PoolOk(s) && b < |s.pool.batches|
    requires BudgetOk(s, b) && CountsOk(s, b) && CallerOk(s, b) && RegisteredOk(s, b)
    ensures var r := Next(c, s, step); BudgetOk(r, b) && CountsOk(r, b) && CallerOk(r, b) && RegisteredOk(r, b)
  {
    SubmitCounts(c, s, step, b);
  }

  lemma SubmitNewBatch(c: Config, s: System, step: Step, b: nat)
    requires Inv(c, s) && step.Submit? && Enabled(s, step) && b == |s.pool.batches|
    ensures var r := Next(c, s, step); BudgetOk(r, b) && CountsOk(r, b) && CallerOk(r, b) && RegisteredOk(r, b)
  {
    SubmitCounts(c, s, step, b);
    NoWorkersYet(c, s, b, FlightOf(b), |s.workers|);
    NoWorkersYet(c, s, b, HeldOf(b), |s.workers|);
    NoWorkersYet(c, s, b, ActiveOf(b), |s.workers|);
    NoWorkersYet(c, s, b, ThreadsOf(b), |s.workers|);
    NoWorkersYet(c, s, b, RaisingOf(b), |s.workers|);
    NoEntriesYet(s, b, QueuedOf(b), |s.pool.queue|);
  }

  lemma SubmitKey(c: Config, s: System, step: Step, key: (nat, nat))
    requires Inv(c, s) && step.Submit? && Enabled(s, step)
    ensures var r := Next(c, s, step); KeyOk(r, key) && ResultOk(c, r, key)
  {
    var r, b := Next(c, s, step), |s.pool.batches|;
    assert KeyOk(s, key) && ResultOk(c, s, key);
    StartedWorkers(s, r, step.started, FlightKey(key));
    var entries := NewEntries(s, step);
    TotalAppend(QueuedKey(key), s.pool.queue, entries);
    EntriesOfKey(entries, b, key, |entries|);
  }

  lemma SubmitEntries(c: Config, s: System, step: Step, i: nat)
    requires step.Submit? && Enabled(s, step) && QueueEntryOk(s, i)
    ensures QueueEntryOk(Next(c, s, step), i)
  {
    var r, workers := Next(c, s, step), Workers(|step.jobs|, step.maxWorkers, step.budget);
    if |s.pool.queue| <= i < |r.pool.queue| {
      SharesMakeUpBudget(step.budget, workers, i - |s.pool.queue|);
    }
  }

  lemma SubmitStarts(c: Config, s: System, step: Step)
    requires step.Submit? && Enabled(s, step)
    ensures |Next(c, s, step).workers| > 0
  {
    var r := Next(c, s, step);
    LiveBatchHasWorkers(r.pool, |s.workers|, step.started, |s.pool.registered|);
  }

  lemma SubmitOk(c: Config, s: System, step: Step)
    requires Inv(c, s) && step.Submit? && Enabled(s, step)
    ensures Inv(c, Next(c, s, step))
  {
    var r := Next(c, s, step);
    SubmitStarts(c, s, step);
    StartedWorkers(s, r, step.started, ThreadsIn);
    forall b: nat ensures BudgetOk(r, b) && CountsOk(r, b) && CallerOk(r, b) && RegisteredOk(r, b) {
      assert BudgetOk(s, b) && CountsOk(s, b) && CallerOk(s, b) && RegisteredOk(s, b);
      if b < |s.pool.batches| {
        SubmitOldBatch(c, s, step, b);
      } else if b == |s.pool.batches| {
        SubmitNewBatch(c, s, step, b);
      }
    }
    forall key ensures KeyOk(r, key) && ResultOk(c, r, key) {
      SubmitKey(c, s, step, key);
    }
    forall i: nat ensures QueueEntryOk(r, i) {
      assert QueueEntryOk(s, i);
      SubmitEntries(c, s, step, i);
    }
    forall v: nat ensures WorkerOk(c, r, v) {
      assert WorkerOk(c, s, v);
    }
  }

  // All steps ----------------------------------------------------------------------------------------

  lemma StepKeepsInv(c: Config, s: System, step: Step)
    requires Inv(c, s) && Enabled(s, step)
    ensures Inv(c, Next(c, s, step))
  {
    match step
    case Submit(_, _, _, _, _) => SubmitOk(c, s, step);
    case Take(w, capacity) => TakeOk(c, s, w, capacity);
    case Encode(w, failure) => EncodeOk(c, s, w, failure);
    case Exchange(w) => ExchangeOk(c, s, w);
    case Raise(w) => RaiseOk(c, s, w);
    case Release(w) => ReleaseOk(c, s, w);
    case PublishStep(w) => PublishOk(c, s, w);
    case Interrupt(b) => InterruptOk(c, s, b);
    case Discard(b) => DiscardOk(c, s, b);
    case Count(b) => CountOk(c, s, b);
    case Finish(b, late) => FinishOk(c, s, b, late);
  }

  lemma {:induction false} RunKeepsInv(c: Config, states: seq<System>, steps: seq<Step>, k: nat)
    requires IsRun(c, states, steps) && k <= |steps|
    ensures Inv(c, states[k])
  {
    if k > 0 {
      RunKeepsInv(c, states, steps, k - 1);
      assert IsStep(c, states[k - 1], steps[k - 1], states[k]);
      StepKeepsInv(c, states[k - 1], steps[k - 1]);
    }
  }
}
