/** Scans that fail or are stopped: the first error is the one that is raised, in whoever claims next, and nothing is
    handed out, queued or waited for any more. */
module VideoStops {
  import opened Collections
  import opened VideoBuffers
  import opened VideoQueue
  import opened VideoRuns
  import opened VideoInvariant

  /** Step f is the first one in which a producer throws, and throws e. */
  ghost predicate FirstBreak(steps: seq<Step>, f: nat, e: nat) {
    f < |steps| && steps[f].Break? && steps[f].error == e && forall i :: 0 <= i < f ==> !steps[i].Break?
  }

  ghost predicate RemembersFirst(s: System, steps: seq<Step>, n: nat)
    requires n <= |steps|
  {
    && (s.queue.error.None? ==> forall i :: 0 <= i < n ==> !steps[i].Break?)
    && (s.queue.error.Some? ==> exists f: nat :: f < n && FirstBreak(steps, f, s.queue.error.value))
  }

  lemma StepRemembers(c: Config, s: System, step: Step)
    requires Enabled(s, step)
    ensures Next(c, s, step).queue.error ==
            if s.queue.error.None? && step.Break? then Some(step.error) else s.queue.error
  {
  }

  lemma {:induction false} ErrorIsTheFirst(
    c: Config, states: seq<System>, steps: seq<Step>, producerThreads: nat, consumers: nat, n: nat)
    requires Run(c, states, steps, producerThreads, consumers) && n <= |steps|
    ensures RemembersFirst(states[n], steps, n)
  {
    if n > 0 {
      ErrorIsTheFirst(c, states, steps, producerThreads, consumers, n - 1);
      assert StepAt(c, states, steps, n - 1);
      StepRemembers(c, states[n - 1], steps[n - 1]);
      if states[n - 1].queue.error.None? && steps[n - 1].Break? {
        assert FirstBreak(steps, n - 1, steps[n - 1].error);
      }
    }
  }

  lemma BrokenHasFirst(steps: seq<Step>, i: nat) returns (f: nat, e: nat)
    requires i < |steps| && steps[i].Break?
    ensures f <= i && FirstBreak(steps, f, e)
  {
    f := 0;
    while !steps[f].Break?
      invariant f <= i && forall j :: 0 <= j < f ==> !steps[j].Break?
      decreases i - f
    {
      f := f + 1;
    }
    e := steps[f].error;
  }

  lemma FirstIsUnique(steps: seq<Step>, f: nat, g: nat, d: nat, e: nat)
    requires FirstBreak(steps, f, d) && FirstBreak(steps, g, e)
    ensures f == g && d == e
  {
  }

  lemma ThrowsInClaim(c: Config, s: System, k: nat)
    requires Enabled(s, Claim(k)) && s.queue.error.Some?
    ensures Next(c, s, Claim(k)) == s.(consumers := s.consumers[k := Threw(s.queue.error.value)])
  {
  }

  /** Once a producer has thrown, in every run: whoever claims gets the error of the first producer that threw, and
      nothing is handed out any more. */
  lemma FailedScanThrows(
    c: Config, states: seq<System>, steps: seq<Step>, producerThreads: nat, consumers: nat, i: nat, j: nat, k: nat)
    returns (f: nat, e: nat)
    requires Run(c, states, steps, producerThreads, consumers)
    requires i < j < |steps| && steps[i].Break? && steps[j] == Claim(k)
    ensures f <= i && FirstBreak(steps, f, e)
    ensures k < |states[j + 1].consumers| && states[j + 1].consumers[k] == Threw(e)
    ensures states[j + 1].claimed == states[j].claimed
  {
    f, e := BrokenHasFirst(steps, i);
    ErrorIsTheFirst(c, states, steps, producerThreads, consumers, j);
    assert StepAt(c, states, steps, j);
    ThrowsInClaim(c, states[j], k);
    var g: nat :| g < j && FirstBreak(steps, g, states[j].queue.error.value);
    FirstIsUnique(steps, f, g, e, states[j].queue.error.value);
  }

  lemma NewlyThrown(c: Config, s: System, step: Step, k: nat)
    requires Enabled(s, step) && k < |Next(c, s, step).consumers| && Next(c, s, step).consumers[k].Threw?
    ensures k < |s.consumers|
    ensures s.consumers[k] == Next(c, s, step).consumers[k] || s.queue.error == Some(Next(c, s, step).consumers[k].error)
  {
  }

  /** A consumer throws only what a producer threw before, and the first such error. */
  lemma {:induction false} ThrownIsTheFirstError(
    c: Config, states: seq<System>, steps: seq<Step>, producerThreads: nat, consumers: nat, n: nat, k: nat) returns (f: nat)
    requires Run(c, states, steps, producerThreads, consumers) && n <= |steps|
    requires k < |states[n].consumers| && states[n].consumers[k].Threw?
    ensures f < n && FirstBreak(steps, f, states[n].consumers[k].error)
  {
    if n > 0 {
      assert StepAt(c, states, steps, n - 1);
      NewlyThrown(c, states[n - 1], steps[n - 1], k);
      if states[n - 1].consumers[k] == states[n].consumers[k] {
        f := ThrownIsTheFirstError(c, states, steps, producerThreads, consumers, n - 1, k);
      } else {
        ErrorIsTheFirst(c, states, steps, producerThreads, consumers, n - 1);
        f :| f < n - 1 && FirstBreak(steps, f, states[n].consumers[k].error);
      }
    }
  }

  // Stopping -----------------------------------------------------------------------------------------

  /** The step ends the scan before its time. */
  predicate Stops(step: Step) {
    step.Break? || step.Notice? || step.Abandon? || step.Cancel?
  }

  ghost predicate IsStopped(s: System) {
    s.queue.stopRequested && s.queue.blockedProducers == []
  }

  lemma StopsTheScan(c: Config, s: System, step: Step)
    requires Enabled(s, step) && Stops(step) && !step.Abandon?
    ensures IsStopped(Next(c, s, step))
  {
  }

  /** A stopped scan queues nothing and puts nobody to sleep. */
  lemma StaysStopped(c: Config, s: System, step: Step)
    requires Enabled(s, step) && s.queue.stopRequested
    requires step.Advance? ==> s.producers[step.p].position <= |s.producers[step.p].pending|
    ensures Next(c, s, step).queue.stopRequested && Next(c, s, step).history == s.history
    ensures s.queue.blockedProducers == [] ==> Next(c, s, step).queue.blockedProducers == []
    ensures step.Claim? ==> Next(c, s, step).consumers[step.k] != Idle
  {
    if step.Advance? {
      var task := s.producers[step.p];
      assert task.pending[task.position..task.position] == [];
    }
  }

  lemma {:induction false} StoppedFrom(
    c: Config, states: seq<System>, steps: seq<Step>, producerThreads: nat, consumers: nat, i: nat, j: nat)
    requires c.Valid() && producerThreads > 0 && Run(c, states, steps, producerThreads, consumers)
    requires i <= j < |states| && states[i].queue.stopRequested
    ensures states[j].queue.stopRequested && states[j].history == states[i].history
    ensures states[i].queue.blockedProducers == [] ==> states[j].queue.blockedProducers == []
  {
    if i < j {
      StoppedFrom(c, states, steps, producerThreads, consumers, i, j - 1);
      RunKeepsInv(c, states, steps, producerThreads, consumers, j - 1);
      assert StepAt(c, states, steps, j - 1);
      if steps[j - 1].Advance? {
        assert TaskInv(c, states[j - 1], steps[j - 1].p);
      }
      StaysStopped(c, states[j - 1], steps[j - 1]);
    }
  }

  lemma StopRequested(c: Config, s: System, step: Step)
    requires Enabled(s, step) && Stops(step)
    ensures Next(c, s, step).queue.stopRequested
  {
  }

  /** After a producer has thrown or been destroyed, or the scan has been stopped, no target is queued any more and no
      consumer is made to wait; after a stop no producer sleeps either. */
  lemma NothingAfterAStop(
    c: Config, states: seq<System>, steps: seq<Step>, producerThreads: nat, consumers: nat, i: nat, j: nat)
    requires c.Valid() && producerThreads > 0 && Run(c, states, steps, producerThreads, consumers)
    requires i < j < |states| && Stops(steps[i])
    ensures states[j].history == states[i + 1].history
    ensures !steps[i].Abandon? ==> states[j].queue.blockedProducers == []
    ensures j < |steps| && steps[j].Claim? ==>
              steps[j].k < |states[j + 1].consumers| && states[j + 1].consumers[steps[j].k] != Idle
  {
    assert StepAt(c, states, steps, i);
    StopRequested(c, states[i], steps[i]);
    if !steps[i].Abandon? {
      StopsTheScan(c, states[i], steps[i]);
    }
    StoppedFrom(c, states, steps, producerThreads, consumers, i + 1, j);
    if j < |steps| && steps[j].Claim? {
      assert StepAt(c, states, steps, j);
      StaysStopped(c, states[j], steps[j]);
    }
  }
}
