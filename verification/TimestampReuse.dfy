/** When a call uses an index and when it builds one: an index that is there is used, one that was evicted is not
    built again for this version of the file. */
module TimestampReuse {
  import opened Collections
  import opened TimestampRows
  import opened TimestampSlots
  import opened TimestampInvariant
  import opened TimestampRuns

  /** The slot lost its index, or could not get one, and nobody is loading it. */
  predicate IsOut(s: State, k: nat) {
    k < |s.heap| && s.heap[k].skipped && s.heap[k].index.None? && !s.heap[k].loading
  }

  ghost predicate OutStays(a: State, b: State, k: nat) {
    IsOut(a, k) ==> IsOut(b, k)
  }

  lemma DropStaysOut(s: State, k: nat, held: bool, pins: Pins, x: nat)
    requires k < |s.heap|
    ensures OutStays(s, DropSlot(s, k, held, pins), x)
  {
  }

  lemma WithoutIndexStaysOut(s: System, id: nat, state: State, x: nat)
    requires id < |s.threads|
    ensures OutStays(state, WithoutIndex(s, id, state), x)
  {
  }

  lemma {:induction false} EvictAllStaysOut(s: State, limit: nat, bytes: nat, paths: seq<nat>, pins: Pins, x: nat)
    requires Evicts(s, limit, bytes, paths, pins)
    ensures OutStays(s, EvictAll(s, limit, bytes, paths, pins), x)
    decreases |paths|
  {
    if paths != [] {
      EvictAllStaysOut(Evict(s, paths[0], pins), limit, bytes, paths[1..], pins, x);
    }
  }

  lemma LeaveStaysOut(s: System, id: nat, state: State, k: nat, x: nat)
    requires id < |s.threads| && k < |state.heap|
    ensures var freed := WithoutIndex(s, id, state); k < |freed.heap| && OutStays(state, Drop(s, id, freed, k), x)
  {
    var freed := WithoutIndex(s, id, state);
    WithoutIndexStaysOut(s, id, state, x);
    DropStaysOut(freed, k, HeldByOther(s.threads, id, k), OtherPins(s.threads, id), x);
  }

  lemma VisitStaysOut(s: System, id: nat, path: nat, warm: bool, victim: nat, x: nat)
    requires id < |s.threads| && TableOk(s.state)
    ensures OutStays(s.state, AfterVisit(s, id, path, warm, victim).state, x)
  {
    var room := MakeRoom(s, id, path, victim);
    if path !in s.state.slots && |s.state.slots| == MAX_TRACKED_SHARDS && victim in s.state.slots {
      var k := s.state.slots[victim];
      DropStaysOut(s.state.(slots := s.state.slots - {victim}), k, HeldByOther(s.threads, id, k), OtherPins(s.threads, id), x);
    }
    assert OutStays(s.state, room, x);
  }

  lemma CompareStaysOut(s: System, id: nat, x: nat)
    requires id < |s.threads| && s.threads[id].slot < |s.state.heap|
    ensures OutStays(s.state, AfterCompare(s, id).state, x)
  {
    var t := s.threads[id];
    var (state, outcome) := Compare(s.state, t.path, t.slot, t.fingerprint, id);
    assert OutStays(s.state, state, x);
    if outcome.Miss? {
      DropStaysOut(state, t.slot, HeldByOther(s.threads, id, t.slot), OtherPins(s.threads, id), x);
    }
  }

  /** Once out, a slot stays out, whatever anybody does. */
  lemma OutForGood(c: Config, s: System, step: Step, k: nat)
    requires Inv(c, s) && Enabled(c, s, step) && IsOut(s.state, k)
    ensures IsOut(Next(c, s, step).state, k)
  {
    match step
    case Visit(id, path, warm, victim) => VisitStaysOut(s, id, path, warm, victim, k);
    case CompareStep(id) => CompareStaysOut(s, id, k);
    case ReserveStep(id, rowCount, evicted) =>
      EvictAllStaysOut(s.state, c.limit, rowCount * ROW_BYTES, evicted, OtherPins(s.threads, id), k);
    case Read(id, raw, rows) => WithoutIndexStaysOut(s, id, s.state, k);
    case GiveUp(id) => WithoutIndexStaysOut(s, id, s.state, k);
    case Throw(id) =>
      var t := s.threads[id];
      LeaveStaysOut(s, id, if IsLoader(t) then StopLoading(s.state, t.slot) else s.state, t.slot, k);
    case PublishStep(id) => PublishStaysOut(c, s, id, k);
    case Release(id) => WithoutIndexStaysOut(s, id, s.state, k);
    case _ =>
  }

  lemma PublishStaysOut(c: Config, s: System, id: nat, k: nat)
    requires Inv(c, s) && Enabled(c, s, PublishStep(id)) && IsOut(s.state, k)
    ensures IsOut(AfterPublish(s, id).state, k)
  {
    var t := s.threads[id];
    assert ThreadInv(c, s, id) && t.slot != k;
    var state := Publish(s.state, t.path, t.slot, t.same, t.index).0;
    assert IsOut(state, k);
    LeaveStaysOut(s, id, state, t.slot, k);
  }

  lemma {:induction false} OutFromThenOn(c: Config, states: seq<System>, steps: seq<Step>, m: nat, n: nat, k: nat)
    requires IsRun(c, states, steps) && m <= n <= |steps| && IsOut(states[m].state, k)
    ensures IsOut(states[n].state, k)
  {
    if m < n {
      OutFromThenOn(c, states, steps, m, n - 1, k);
      RunKeepsInv(c, states, steps, n - 1);
      assert IsStep(c, states[n - 1], steps[n - 1], states[n]);
      OutForGood(c, states[n - 1], steps[n - 1], k);
    }
  }

  // What comes of a call -----------------------------------------------------------------------------------

  /** What the thread's slot is to it: still that of the shard, and of the version of the file that it has found. */
  predicate Matches(s: State, t: Thread) {
    IsCurrent(s, t.path, t.slot) && t.slot < |s.heap| && (s.heap[t.slot].fingerprint.Some? ==> s.heap[t.slot].fingerprint.value == t.fingerprint)
  }

  /** A thread uses the index of its slot exactly when there is one for the file as it has found it; it builds one exactly
      when there is none, nobody else builds it and the slot is not out; otherwise the shard is queried. */
  lemma UsesOrBuilds(c: Config, s: System, id: nat)
    requires Inv(c, s) && Enabled(c, s, CompareStep(id))
    ensures var t, after := s.threads[id], Next(c, s, CompareStep(id)).threads[id];
            && t.slot < |s.state.heap|
            && var slot := s.state.heap[t.slot];
               && (after.phase == Using <==> Matches(s.state, t) && slot.index.Some?)
               && (after.phase == Using ==> after.index == slot.index)
               && (after.phase == Loading <==> Matches(s.state, t) && slot.index.None? && !slot.loading && !slot.skipped)
               && (after.phase == Using || after.phase == Loading || after.phase == Idle)
  {
    assert ThreadInv(c, s, id) && SlotOk(c, s.state, s.threads[id].slot);
  }

  ghost predicate EvictedAt(s: State, r: State, path: nat) {
    path in s.slots && IsOut(r, s.slots[path])
  }

  lemma EvictsOut(c: Config, s: State, path: nat, pins: Pins)
    requires StateOk(c, s) && IsOldestIndexed(s, path)
    ensures EvictedAt(s, Evict(s, path, pins), path)
  {
    assert SlotOk(c, s, s.slots[path]);
  }

  lemma {:induction false} AllEvictedAreOut(c: Config, s: State, bytes: nat, paths: seq<nat>, pins: Pins, j: nat)
    requires StateOk(c, s) && Evicts(s, c.limit, bytes, paths, pins) && j < |paths|
    ensures EvictedAt(s, EvictAll(s, c.limit, bytes, paths, pins), paths[j])
    decreases |paths|
  {
    var evicted := Evict(s, paths[0], pins);
    if j == 0 {
      EvictsOut(c, s, paths[0], pins);
      EvictAllStaysOut(evicted, c.limit, bytes, paths[1..], pins, s.slots[paths[0]]);
    } else {
      EvictOk(c, s, paths[0], pins);
      EvictKeepsSlots(s, paths[0], pins);
      AllEvictedAreOut(c, evicted, bytes, paths[1..], pins, j - 1);
    }
  }

  lemma EvictKeepsSlots(s: State, path: nat, pins: Pins)
    requires path in s.slots && s.slots[path] < |s.heap|
    ensures Evict(s, path, pins).slots == s.slots
  {
  }

  /** An index that had to make room is not built again: in every run, no thread that holds its slot later uses or builds
      an index for it. */
  lemma EvictedIsNotRebuilt(c: Config, states: seq<System>, steps: seq<Step>, m: nat, n: nat, id: nat, rowCount: nat,
                            evicted: seq<nat>, j: nat, other: nat)
    requires IsRun(c, states, steps) && m < n < |steps| && steps[m] == ReserveStep(id, rowCount, evicted) && j < |evicted|
    requires rowCount <= c.limit / ROW_BYTES
    requires steps[n] == CompareStep(other) && other < |states[n].threads|
    requires evicted[j] in states[m].state.slots && states[n].threads[other].slot == states[m].state.slots[evicted[j]]
    ensures other < |states[n + 1].threads| && states[n + 1].threads[other].phase == Idle
  {
    var s := states[m];
    RunKeepsInv(c, states, steps, m);
    assert IsStep(c, s, steps[m], states[m + 1]);
    AllEvictedAreOut(c, s.state, rowCount * ROW_BYTES, evicted, OtherPins(s.threads, id), j);
    OutFromThenOn(c, states, steps, m + 1, n, s.state.slots[evicted[j]]);
    RunKeepsInv(c, states, steps, n);
    assert IsStep(c, states[n], steps[n], states[n + 1]);
    UsesOrBuilds(c, states[n], other);
  }
}
