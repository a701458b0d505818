/** The error that a call reports: the one its own first failing job ran into, whatever else fails later. */
module CodecErrors {
  import opened Collections
  import opened CodecPool
  import opened CodecRuns
  import opened CodecInvariant

  /** In step i worker w failed to encode a job of batch b with error x, and in step j it was the first worker to
      report a failure of this batch; in between it did nothing else. */
  ghost predicate FailedFirst(states: seq<System>, steps: seq<Step>, b: nat, x: nat, i: nat, j: nat) {
    && i < j < |steps| && j < |states|
    && steps[j].Exchange? && steps[i] == Encode(steps[j].w, Some(x))
    && (forall m: nat :: i < m <= j ==> HasFailed(states[m], steps[j].w, b, x, states[j].workers))
    && (forall m: nat :: m < j ==> !Reports(states, steps, m, b))
  }

  /** The worker is about to report this error of a job of batch b. */
  ghost predicate HasFailed(s: System, w: nat, b: nat, x: nat, workers: seq<Worker>) {
    && w < |s.workers| && w < |workers| && s.workers[w] == workers[w]
    && s.workers[w].Busy? && s.workers[w].stage == Failing && s.workers[w].entry.batch == b
    && s.workers[w].outcome == Failed(x)
  }

  /** Step m reports a failure of batch b. */
  ghost predicate Reports(states: seq<System>, steps: seq<Step>, m: nat, b: nat) {
    && m < |steps| && m < |states| && steps[m].Exchange? && steps[m].w < |states[m].workers|
    && states[m].workers[steps[m].w].Busy? && states[m].workers[steps[m].w].entry.batch == b
  }

  /** The first n steps have a first failure of batch b, and it was x. */
  ghost predicate FailedBy(states: seq<System>, steps: seq<Step>, n: nat, b: nat, x: nat) {
    exists i: nat, j: nat :: j < n && FailedFirst(states, steps, b, x, i, j)
  }

  /** The worker has been as it is since it failed to encode its job in step i. */
  ghost predicate FailingSince(states: seq<System>, steps: seq<Step>, n: nat, w: nat, i: nat)
    requires n < |states| && w < |states[n].workers|
  {
    && i < n <= |steps| && states[n].workers[w].Busy? && states[n].workers[w].outcome.Failed?
    && steps[i] == Encode(w, Some(states[n].workers[w].outcome.error))
    && forall m: nat :: i < m <= n ==> SameWorker(states, m, n, w)
  }

  ghost predicate SameWorker(states: seq<System>, m: nat, n: nat, w: nat) {
    m < |states| && n < |states| && w < |states[m].workers| && w < |states[n].workers| && states[m].workers[w] == states[n].workers[w]
  }

  /** Every error on its way goes back to a job that failed with it. */
  ghost predicate WorkerHasReason(states: seq<System>, steps: seq<Step>, n: nat, w: nat) {
    n < |states| && w < |states[n].workers| && states[n].workers[w].Busy? ==>
      var worker := states[n].workers[w];
      && (worker.stage == Failing ==> exists i: nat :: FailingSince(states, steps, n, w, i))
      && (worker.stage == Raising ==> worker.outcome.Failed? && FailedBy(states, steps, n, worker.entry.batch, worker.outcome.error))
  }

  ghost predicate BatchHasReason(states: seq<System>, steps: seq<Step>, n: nat, b: nat) {
    n < |states| && b < |states[n].pool.batches| ==>
      && (states[n].pool.batches[b].error.Some? ==> FailedBy(states, steps, n, b, states[n].pool.batches[b].error.value))
      && (!states[n].pool.batches[b].cancelled ==> forall m: nat :: m < n ==> !Reports(states, steps, m, b))
  }

  ghost predicate CallHasReason(states: seq<System>, steps: seq<Step>, n: nat, b: nat) {
    n < |states| && b < |states[n].callers| && states[n].callers[b].Returned? && states[n].callers[b].result.Error? ==>
      FailedBy(states, steps, n, b, states[n].callers[b].result.error)
  }

  // What one step does -------------------------------------------------------------------------------

  /** A worker comes to fail by an encoding that fails, and to raise by being the first to report. */
  lemma WorkerStep(c: Config, s: System, step: Step, w: nat)
    requires Inv(c, s) && Enabled(s, step) && w < |Next(c, s, step).workers| && Next(c, s, step).workers[w].Busy?
    ensures var worker := Next(c, s, step).workers[w];
            && (worker.stage == Failing && !(w < |s.workers| && s.workers[w] == worker) ==>
                  worker.outcome.Failed? && step == Encode(w, Some(worker.outcome.error)))
            && (worker.stage == Raising && !(w < |s.workers| && s.workers[w] == worker) ==>
                  && step == Exchange(w) && w < |s.workers| && s.workers[w].Busy? && s.workers[w].stage == Failing
                  && s.workers[w].entry == worker.entry && s.workers[w].outcome == worker.outcome
                  && worker.entry.batch < |s.pool.batches| && !s.pool.batches[worker.entry.batch].cancelled)
  {
  }

  /** A batch's error is set by the worker that raises it, and reporting cancels the batch. */
  lemma BatchStep(c: Config, s: System, step: Step, b: nat)
    requires Inv(c, s) && Enabled(s, step) && b < |Next(c, s, step).pool.batches|
    ensures var r := Next(c, s, step);
            && (r.pool.batches[b].error.Some? && !(b < |s.pool.batches| && s.pool.batches[b].error == r.pool.batches[b].error) ==>
                  && step.Raise? && step.w < |s.workers| && s.workers[step.w].Busy? && s.workers[step.w].stage == Raising
                  && s.workers[step.w].entry.batch == b && s.workers[step.w].outcome == Failed(r.pool.batches[b].error.value))
            && (!r.pool.batches[b].cancelled && b < |s.pool.batches| ==>
                  && !s.pool.batches[b].cancelled
                  && !(step.Exchange? && step.w < |s.workers| && s.workers[step.w].Busy? && s.workers[step.w].entry.batch == b))
            && (b >= |s.pool.batches| ==> step.Submit?)
  {
  }

  lemma CallStep(c: Config, s: System, step: Step, b: nat)
    requires Inv(c, s) && Enabled(s, step) && b < |Next(c, s, step).callers|
    requires Next(c, s, step).callers[b].Returned? && Next(c, s, step).callers[b].result.Error?
    ensures (b < |s.callers| && s.callers[b] == Next(c, s, step).callers[b])
            || (b < |s.pool.batches| && s.pool.batches[b].error == Some(Next(c, s, step).callers[b].result.error))
  {
  }

  lemma BatchesStay(c: Config, s: System, step: Step)
    requires Enabled(s, step)
    ensures |s.pool.batches| <= |Next(c, s, step).pool.batches| <= |s.pool.batches| + (if step.Submit? then 1 else 0)
  {
  }

  // Along a run --------------------------------------------------------------------------------------

  lemma StepOf(c: Config, states: seq<System>, steps: seq<Step>, k: nat)
    requires IsRun(c, states, steps) && k < |steps|
    ensures Inv(c, states[k]) && Enabled(states[k], steps[k]) && states[k + 1] == Next(c, states[k], steps[k])
  {
    RunKeepsInv(c, states, steps, k);
    assert IsStep(c, states[k], steps[k], states[k + 1]);
  }

  lemma {:induction false} BatchesGrow(c: Config, states: seq<System>, steps: seq<Step>, m: nat, n: nat)
    requires IsRun(c, states, steps) && m <= n <= |steps|
    ensures |states[m].pool.batches| <= |states[n].pool.batches|
  {
    if m < n {
      BatchesGrow(c, states, steps, m, n - 1);
      StepOf(c, states, steps, n - 1);
      BatchesStay(c, states[n - 1], steps[n - 1]);
    }
  }

  /** Nobody reports a failure of a batch that has not been submitted. */
  lemma ReportsExisting(c: Config, states: seq<System>, steps: seq<Step>, m: nat, n: nat, b: nat)
    requires IsRun(c, states, steps) && m < n <= |steps| && |states[n].pool.batches| <= b
    ensures !Reports(states, steps, m, b)
  {
    RunKeepsInv(c, states, steps, m);
    BatchesGrow(c, states, steps, m, n);
    assert steps[m].Exchange? ==> WorkerOk(c, states[m], steps[m].w);
  }

  ghost predicate AllHaveReasons(states: seq<System>, steps: seq<Step>, n: nat) {
    && (forall w: nat :: WorkerHasReason(states, steps, n, w))
    && (forall b: nat :: BatchHasReason(states, steps, n, b))
    && (forall b: nat :: CallHasReason(states, steps, n, b))
  }

  lemma StaysFailing(states: seq<System>, steps: seq<Step>, n: nat, w: nat, i: nat)
    requires n + 1 < |states| && n < |steps| && w < |states[n].workers|
    requires FailingSince(states, steps, n, w, i) && SameWorker(states, n, n + 1, w)
    ensures FailingSince(states, steps, n + 1, w, i)
  {
    var next := n + 1;
    forall m: nat | i < m <= next ensures SameWorker(states, m, next, w) {
      assert m <= n ==> SameWorker(states, m, n, w);
    }
  }

  /** The first report of a batch. */
  lemma ReportsFirst(states: seq<System>, steps: seq<Step>, n: nat, w: nat, i: nat, b: nat, x: nat)
    requires n < |states| && n < |steps| && w < |states[n].workers| && FailingSince(states, steps, n, w, i)
    requires steps[n] == Exchange(w) && states[n].workers[w].stage == Failing
    requires states[n].workers[w].entry.batch == b && states[n].workers[w].outcome == Failed(x)
    requires forall m: nat :: m < n ==> !Reports(states, steps, m, b)
    ensures FailedBy(states, steps, n + 1, b, x)
  {
    forall m: nat | i < m <= n ensures HasFailed(states[m], w, b, x, states[n].workers) {
      assert SameWorker(states, m, n, w);
    }
    assert FailedFirst(states, steps, b, x, i, n);
  }

  lemma WorkerKeepsReason(c: Config, states: seq<System>, steps: seq<Step>, n: nat, w: nat)
    requires n < |steps| && n + 1 < |states| && AllHaveReasons(states, steps, n)
    requires Inv(c, states[n]) && Enabled(states[n], steps[n]) && states[n + 1] == Next(c, states[n], steps[n])
    ensures WorkerHasReason(states, steps, n + 1, w)
  {
    var s, step, r := states[n], steps[n], states[n + 1];
    if w < |r.workers| && r.workers[w].Busy? {
      WorkerStep(c, s, step, w);
      assert WorkerHasReason(states, steps, n, w);
      var worker := r.workers[w];
      if w < |s.workers| && s.workers[w] == worker {
        if worker.stage == Failing {
          var i: nat :| FailingSince(states, steps, n, w, i);
          StaysFailing(states, steps, n, w, i);
        }
      } else if worker.stage == Failing {
        assert SameWorker(states, n + 1, n + 1, w);
        assert FailingSince(states, steps, n + 1, w, n);
      } else if worker.stage == Raising {
        assert BatchHasReason(states, steps, n, worker.entry.batch);
        var i: nat :| FailingSince(states, steps, n, w, i);
        ReportsFirst(states, steps, n, w, i, worker.entry.batch, worker.outcome.error);
      }
    }
  }

  lemma BatchKeepsReason(c: Config, states: seq<System>, steps: seq<Step>, n: nat, b: nat)
    requires IsRun(c, states, steps) && n < |steps| && AllHaveReasons(states, steps, n)
    requires Inv(c, states[n]) && Enabled(states[n], steps[n]) && states[n + 1] == Next(c, states[n], steps[n])
    ensures BatchHasReason(states, steps, n + 1, b)
  {
    var s, step, r := states[n], steps[n], states[n + 1];
    if b < |r.pool.batches| {
      BatchStep(c, s, step, b);
      assert BatchHasReason(states, steps, n, b);
      if r.pool.batches[b].error.Some? && !(b < |s.pool.batches| && s.pool.batches[b].error == r.pool.batches[b].error) {
        assert WorkerHasReason(states, steps, n, step.w);
      }
      if !r.pool.batches[b].cancelled {
        forall m: nat | m < n + 1 ensures !Reports(states, steps, m, b) {
          if b >= |s.pool.batches| && m < n {
            ReportsExisting(c, states, steps, m, n, b);
          }
        }
      }
    }
  }

  lemma CallKeepsReason(c: Config, states: seq<System>, steps: seq<Step>, n: nat, b: nat)
    requires n < |steps| && n + 1 < |states| && AllHaveReasons(states, steps, n)
    requires Inv(c, states[n]) && Enabled(states[n], steps[n]) && states[n + 1] == Next(c, states[n], steps[n])
    ensures CallHasReason(states, steps, n + 1, b)
  {
    var s, r := states[n], states[n + 1];
    if b < |r.callers| && r.callers[b].Returned? && r.callers[b].result.Error? {
      CallStep(c, s, steps[n], b);
      assert CallHasReason(states, steps, n, b) && BatchHasReason(states, steps, n, b);
    }
  }

  lemma {:induction false} ReasonsKept(c: Config, states: seq<System>, steps: seq<Step>, n: nat)
    requires IsRun(c, states, steps) && n <= |steps|
    ensures AllHaveReasons(states, steps, n)
  {
    if n > 0 {
      ReasonsKept(c, states, steps, n - 1);
      StepOf(c, states, steps, n - 1);
      forall w: nat ensures WorkerHasReason(states, steps, n, w) {
        WorkerKeepsReason(c, states, steps, n - 1, w);
      }
      forall b: nat ensures BatchHasReason(states, steps, n, b) && CallHasReason(states, steps, n, b) {
        BatchKeepsReason(c, states, steps, n - 1, b);
        CallKeepsReason(c, states, steps, n - 1, b);
      }
    }
  }

  /** In every run: a call that reports error x had a job whose encoding failed with x, and the worker with this job was
      the first to report a failure of the call's batch. */
  lemma ReportedErrorIsTheFirst(c: Config, states: seq<System>, steps: seq<Step>, n: nat, b: nat, x: nat)
    returns (i: nat, j: nat)
    requires IsRun(c, states, steps) && n <= |steps|
    requires b < |states[n].callers| && states[n].callers[b] == Returned(Error(x))
    ensures j < n && FailedFirst(states, steps, b, x, i, j)
  {
    ReasonsKept(c, states, steps, n);
    assert CallHasReason(states, steps, n, b);
    i, j :| j < n && FailedFirst(states, steps, b, x, i, j);
  }
}
