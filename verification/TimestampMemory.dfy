/** The rows of all indexes fit the memory that is reserved for them, at 32 bytes each, in every run. */
module TimestampMemory {
  import opened Collections
  import opened TimestampRows
  import opened TimestampSlots
  import opened TimestampInvariant
  import opened TimestampRuns
  import opened Sums

  // No section but the end of a read changes the rows of an index ----------------------------------------

  ghost predicate SameRows(a: State, b: State, i: nat) {
    i < |b.indexes| ==>
      if i < |a.indexes| then b.indexes[i].rows == a.indexes[i].rows && b.indexes[i].bytes == a.indexes[i].bytes
      else b.indexes[i].rows == []
  }

  ghost predicate RowsStay(a: State, b: State) {
    |a.indexes| <= |b.indexes| && forall i: nat :: SameRows(a, b, i)
  }

  /** No memory is reserved. */
  predicate OnlyFrees(a: State, b: State) {
    b.bytes <= a.bytes && b.peak == a.peak
  }

  lemma RowsStayTrans(a: State, b: State, d: State)
    requires RowsStay(a, b) && RowsStay(b, d)
    ensures RowsStay(a, d)
  {
    forall i: nat ensures SameRows(a, d, i) {
      assert SameRows(a, b, i) && SameRows(b, d, i);
    }
  }

  lemma DropStays(s: State, k: nat, held: bool, pins: Pins)
    requires k < |s.heap|
    ensures RowsStay(s, DropSlot(s, k, held, pins)) && OnlyFrees(s, DropSlot(s, k, held, pins))
  {
  }

  lemma EvictStays(s: State, path: nat, pins: Pins)
    requires path in s.slots && s.slots[path] < |s.heap|
    ensures RowsStay(s, Evict(s, path, pins)) && OnlyFrees(s, Evict(s, path, pins))
  {
  }

  lemma {:induction false} EvictAllStays(s: State, limit: nat, bytes: nat, paths: seq<nat>, pins: Pins)
    requires Evicts(s, limit, bytes, paths, pins)
    ensures RowsStay(s, EvictAll(s, limit, bytes, paths, pins)) && OnlyFrees(s, EvictAll(s, limit, bytes, paths, pins))
    decreases |paths|
  {
    if paths != [] {
      var evicted := Evict(s, paths[0], pins);
      EvictStays(s, paths[0], pins);
      EvictAllStays(evicted, limit, bytes, paths[1..], pins);
      RowsStayTrans(s, evicted, EvictAll(s, limit, bytes, paths, pins));
    }
  }

  lemma WithoutIndexStays(s: System, id: nat, state: State)
    requires id < |s.threads|
    ensures RowsStay(state, WithoutIndex(s, id, state)) && OnlyFrees(state, WithoutIndex(s, id, state))
  {
  }

  lemma LeaveStays(s: System, id: nat, state: State, k: nat)
    requires id < |s.threads| && k < |state.heap|
    ensures var freed := WithoutIndex(s, id, state); k < |freed.heap| && RowsStay(state, Drop(s, id, freed, k)) && OnlyFrees(state, Drop(s, id, freed, k))
  {
    var freed := WithoutIndex(s, id, state);
    WithoutIndexStays(s, id, state);
    DropStays(freed, k, HeldByOther(s.threads, id, k), OtherPins(s.threads, id));
    RowsStayTrans(state, freed, Drop(s, id, freed, k));
  }

  lemma CompareStays(s: System, id: nat)
    requires id < |s.threads| && s.threads[id].slot < |s.state.heap|
    ensures RowsStay(s.state, AfterCompare(s, id).state) && OnlyFrees(s.state, AfterCompare(s, id).state)
  {
    var t := s.threads[id];
    var (state, outcome) := Compare(s.state, t.path, t.slot, t.fingerprint, id);
    if outcome.Miss? {
      DropStays(state, t.slot, HeldByOther(s.threads, id, t.slot), OtherPins(s.threads, id));
      RowsStayTrans(s.state, state, Drop(s, id, state, t.slot));
    }
  }

  lemma VisitStays(s: System, id: nat, path: nat, warm: bool, victim: nat)
    requires id < |s.threads| && TableOk(s.state)
    ensures RowsStay(s.state, AfterVisit(s, id, path, warm, victim).state) && OnlyFrees(s.state, AfterVisit(s, id, path, warm, victim).state)
  {
    if path !in s.state.slots && |s.state.slots| == MAX_TRACKED_SHARDS && victim in s.state.slots {
      var without := s.state.(slots := s.state.slots - {victim});
      DropStays(without, s.state.slots[victim], HeldByOther(s.threads, id, s.state.slots[victim]), OtherPins(s.threads, id));
      assert RowsStay(s.state, without);
      RowsStayTrans(s.state, without, MakeRoom(s, id, path, victim));
    }
    RowsStayTrans(s.state, MakeRoom(s, id, path, victim), AfterVisit(s, id, path, warm, victim).state);
  }

  lemma PublishStays(s: State, path: nat, k: nat, same: bool, index: Option<nat>)
    requires k < |s.heap| && (index.Some? ==> index.value < |s.indexes|)
    ensures RowsStay(s, Publish(s, path, k, same, index).0) && OnlyFrees(s, Publish(s, path, k, same, index).0)
  {
  }

  lemma ReserveStays(s: System, c: Config, id: nat, rowCount: nat, evicted: seq<nat>)
    requires id < |s.threads| && Evicts(s.state, c.limit, rowCount * ROW_BYTES, evicted, OtherPins(s.threads, id))
    ensures RowsStay(s.state, AfterReserve(s, c, id, rowCount, evicted).state)
  {
    var state := EvictAll(s.state, c.limit, rowCount * ROW_BYTES, evicted, OtherPins(s.threads, id));
    EvictAllStays(s.state, c.limit, rowCount * ROW_BYTES, evicted, OtherPins(s.threads, id));
    RowsStayTrans(s.state, state, Allocate(state, rowCount * ROW_BYTES, s.threads[id].slot));
  }

  // The invariant ----------------------------------------------------------------------------------------

  ghost predicate RowsFit(s: State, i: nat) {
    i < |s.indexes| ==> 32 * |s.indexes[i].rows| <= s.indexes[i].bytes
  }

  /** Whoever reads rows has reserved 32 bytes for each row promised. */
  ghost predicate ReaderFits(s: State, t: Thread) {
    t.phase == Reading ==> t.index.Some? && t.index.value < |s.indexes| && s.indexes[t.index.value].bytes == 32 * t.rowCount
  }

  ghost predicate ThreadFits(s: System, id: nat) {
    id < |s.threads| ==> ReaderFits(s.state, s.threads[id])
  }

  ghost predicate Fit(s: System) {
    (forall i: nat :: RowsFit(s.state, i)) && forall id: nat :: ThreadFits(s, id)
  }

  lemma StayingFits(s: System, id: nat, state: State, t: Thread)
    requires Fit(s) && id < |s.threads| && RowsStay(s.state, state) && ReaderFits(state, t)
    ensures Fit(WithThread(s, id, state, t))
  {
    var r := WithThread(s, id, state, t);
    forall i: nat ensures RowsFit(state, i) {
      assert RowsFit(s.state, i) && SameRows(s.state, state, i);
    }
    forall other: nat ensures ThreadFits(r, other) {
      assert ThreadFits(s, other);
      if other < |s.threads| && other != id && s.threads[other].phase == Reading {
        assert SameRows(s.state, state, s.threads[other].index.value);
      }
    }
  }

  lemma ReadFits(c: Config, s: System, id: nat, raw: seq<RawRow>, rows: seq<IndexRow>)
    requires Fit(s) && Inv(c, s) && Enabled(c, s, Read(id, raw, rows))
    ensures Fit(AfterRead(s, id, raw, rows))
  {
    var t := s.threads[id];
    assert ThreadFits(s, id);
    if |Keep(raw)| > t.rowCount {
      WithoutIndexStays(s, id, s.state);
      StayingFits(s, id, WithoutIndex(s, id, s.state), t.(phase := Loaded, index := None));
    } else {
      SameNumber(rows, raw);
      var r := AfterRead(s, id, raw, rows);
      forall i: nat ensures RowsFit(r.state, i) {
        assert RowsFit(s.state, i);
      }
      forall other: nat ensures ThreadFits(r, other) {
        assert ThreadFits(s, other);
      }
    }
  }

  lemma SameNumber(rows: seq<IndexRow>, raw: seq<RawRow>)
    requires Indexes(rows, raw)
    ensures |rows| == |Keep(raw)|
  {
    assert |multiset(rows)| == |multiset(Keep(raw))|;
  }

  lemma ReserveFits(c: Config, s: System, id: nat, rowCount: nat, evicted: seq<nat>)
    requires Fit(s) && Inv(c, s) && Enabled(c, s, ReserveStep(id, rowCount, evicted))
    ensures Fit(AfterReserve(s, c, id, rowCount, evicted))
  {
    var r := AfterReserve(s, c, id, rowCount, evicted);
    ReserveStays(s, c, id, rowCount, evicted);
    StayingFits(s, id, r.state, r.threads[id]);
  }

  lemma StepKeepsFit(c: Config, s: System, step: Step)
    requires Fit(s) && Inv(c, s) && Enabled(c, s, step)
    ensures Fit(Next(c, s, step))
  {
    match step
    case Replace(file, version) =>
      forall id: nat ensures ThreadFits(Next(c, s, step), id) {
        assert ThreadFits(s, id);
      }
    case Visit(id, path, warm, victim) =>
      VisitStays(s, id, path, warm, victim);
      OtherFits(s, AfterVisit(s, id, path, warm, victim), id);
    case Identify(id) => StayingFits(s, id, s.state, Next(c, s, step).threads[id]);
    case CompareStep(id) =>
      CompareStays(s, id);
      OtherFits(s, AfterCompare(s, id), id);
    case ReserveStep(id, rowCount, evicted) => ReserveFits(c, s, id, rowCount, evicted);
    case Read(id, raw, rows) => ReadFits(c, s, id, raw, rows);
    case Recheck(id) => StayingFits(s, id, s.state, Next(c, s, step).threads[id]);
    case _ => LeavingFits(c, s, step);
  }

  /** The steps with which a thread gives up an index or a slot. */
  lemma LeavingFits(c: Config, s: System, step: Step)
    requires Fit(s) && Inv(c, s) && Enabled(c, s, step)
    requires step.GiveUp? || step.Throw? || step.PublishStep? || step.Release?
    ensures Fit(Next(c, s, step))
  {
    match step
    case GiveUp(id) =>
      WithoutIndexStays(s, id, s.state);
      OtherFits(s, AfterGiveUp(s, id), id);
    case Throw(id) => ThrowFits(c, s, id);
    case PublishStep(id) => PublishFits(c, s, id);
    case Release(id) =>
      WithoutIndexStays(s, id, s.state);
      OtherFits(s, Next(c, s, step), id);
  }

  lemma ThrowFits(c: Config, s: System, id: nat)
    requires Fit(s) && Inv(c, s) && Enabled(c, s, Throw(id))
    ensures Fit(AfterThrow(s, id))
  {
    var t := s.threads[id];
    var stopped := if IsLoader(t) then StopLoading(s.state, t.slot) else s.state;
    LeaveStays(s, id, stopped, t.slot);
    RowsStayTrans(s.state, stopped, AfterThrow(s, id).state);
    OtherFits(s, AfterThrow(s, id), id);
  }

  lemma PublishFits(c: Config, s: System, id: nat)
    requires Fit(s) && Inv(c, s) && Enabled(c, s, PublishStep(id))
    ensures Fit(AfterPublish(s, id))
  {
    var t := s.threads[id];
    var state := Publish(s.state, t.path, t.slot, t.same, t.index).0;
    PublishStays(s.state, t.path, t.slot, t.same, t.index);
    LeaveStays(s, id, state, t.slot);
    RowsStayTrans(s.state, state, AfterPublish(s, id).state);
    OtherFits(s, AfterPublish(s, id), id);
  }

  /** A thread that does not read. */
  lemma OtherFits(s: System, r: System, id: nat)
    requires Fit(s) && id < |s.threads| == |r.threads| && RowsStay(s.state, r.state)
    requires r == s || (r.threads[id].phase != Reading && r == WithThread(s, id, r.state, r.threads[id]))
    ensures Fit(r)
  {
    if r != s {
      StayingFits(s, id, r.state, r.threads[id]);
    }
  }

  lemma {:induction false} RunKeepsFit(c: Config, states: seq<System>, steps: seq<Step>, k: nat)
    requires IsRun(c, states, steps) && k <= |steps|
    ensures Fit(states[k])
  {
    if k > 0 {
      RunKeepsFit(c, states, steps, k - 1);
      RunKeepsInv(c, states, steps, k - 1);
      assert IsStep(c, states[k - 1], steps[k - 1], states[k]);
      StepKeepsFit(c, states[k - 1], steps[k - 1]);
    }
  }

  /** Memory of an index at 32 bytes a row. */
  function RowMemory(index: Index): nat {
    if index.live then 32 * |index.rows| else 0
  }

  lemma {:induction false} TotalOfRows(indexes: seq<Index>, n: nat)
    requires n <= |indexes| && forall i :: 0 <= i < n ==> 32 * |indexes[i].rows| <= indexes[i].bytes
    ensures Total(RowMemory, indexes, n) <= Total(LiveBytes, indexes, n)
  {
    if n > 0 {
      TotalOfRows(indexes, n - 1);
    }
  }

  /** In every state of every run, the rows of all live indexes together, pinned ones of erased slots included, take no
      more than the limit. */
  lemma RowsFitMemory(c: Config, states: seq<System>, steps: seq<Step>, k: nat)
    requires IsRun(c, states, steps) && k <= |steps|
    ensures Total(RowMemory, states[k].state.indexes, |states[k].state.indexes|) <= c.limit
  {
    RunKeepsFit(c, states, steps, k);
    RunKeepsInv(c, states, steps, k);
    var s := states[k].state;
    forall i | 0 <= i < |s.indexes| ensures 32 * |s.indexes[i].rows| <= s.indexes[i].bytes {
      assert RowsFit(s, i);
    }
    TotalOfRows(s.indexes, |s.indexes|);
  }

  // The peak -----------------------------------------------------------------------------------------------

  function Max(a: int, b: int): int {
    if a < b then b else a
  }

  lemma OtherStepsFree(c: Config, s: System, step: Step)
    requires Inv(c, s) && Enabled(c, s, step) && !step.ReserveStep?
    ensures OnlyFrees(s.state, Next(c, s, step).state)
  {
    match step
    case Visit(id, path, warm, victim) => VisitStays(s, id, path, warm, victim);
    case CompareStep(id) => CompareStays(s, id);
    case Read(id, raw, rows) => WithoutIndexStays(s, id, s.state);
    case GiveUp(id) => WithoutIndexStays(s, id, s.state);
    case Throw(id) =>
      var t := s.threads[id];
      LeaveStays(s, id, if IsLoader(t) then StopLoading(s.state, t.slot) else s.state, t.slot);
    case PublishStep(id) =>
      var t := s.threads[id];
      PublishStays(s.state, t.path, t.slot, t.same, t.index);
      LeaveStays(s, id, Publish(s.state, t.path, t.slot, t.same, t.index).0, t.slot);
    case Release(id) => WithoutIndexStays(s, id, s.state);
    case _ =>
  }

  lemma StepFollowsPeak(c: Config, s: System, step: Step)
    requires Inv(c, s) && Enabled(c, s, step)
    ensures Next(c, s, step).state.peak == Max(s.state.peak, Next(c, s, step).state.bytes)
  {
    match step
    case ReserveStep(id, rowCount, evicted) =>
      EvictAllStays(s.state, c.limit, rowCount * ROW_BYTES, evicted, OtherPins(s.threads, id));
    case _ => OtherStepsFree(c, s, step);
  }

  /** The most bytes of the first n + 1 states. */
  function MostBytes(states: seq<System>, n: nat): int
    requires n < |states|
  {
    if n == 0 then states[0].state.bytes else Max(MostBytes(states, n - 1), states[n].state.bytes)
  }

  /** The peak is the most that was ever reserved. */
  lemma {:induction false} PeakIsTheMost(c: Config, states: seq<System>, steps: seq<Step>, n: nat)
    requires IsRun(c, states, steps) && n <= |steps|
    ensures states[n].state.peak == MostBytes(states, n)
  {
    if n > 0 {
      PeakIsTheMost(c, states, steps, n - 1);
      RunKeepsInv(c, states, steps, n - 1);
      assert IsStep(c, states[n - 1], steps[n - 1], states[n]);
      StepFollowsPeak(c, states[n - 1], steps[n - 1]);
    }
  }
}
