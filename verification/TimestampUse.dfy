/** What the slots' counters stand for in every run: the order of the last visits, and the visits since a shard
    has been tracked. */
module TimestampUse {
  import opened Collections
  import opened TimestampRows
  import opened TimestampSlots
  import opened TimestampInvariant
  import opened TimestampRuns

  // Sections other than the first leave them alone -------------------------------------------------------

  ghost predicate SameSlotUse(a: State, b: State, k: nat) {
    k < |a.heap| && k < |b.heap| ==> b.heap[k].lastUse == a.heap[k].lastUse && b.heap[k].visits == a.heap[k].visits
  }

  ghost predicate SameUse(a: State, b: State) {
    b.clock == a.clock && b.slots == a.slots && |b.heap| == |a.heap| && forall k: nat :: SameSlotUse(a, b, k)
  }

  lemma SameUseTrans(a: State, b: State, d: State)
    requires SameUse(a, b) && SameUse(b, d)
    ensures SameUse(a, d)
  {
    forall k: nat ensures SameSlotUse(a, d, k) {
      assert SameSlotUse(a, b, k) && SameSlotUse(b, d, k);
    }
  }

  lemma DropSameUse(s: State, k: nat, held: bool, pins: Pins)
    requires k < |s.heap|
    ensures SameUse(s, DropSlot(s, k, held, pins))
  {
  }

  lemma EvictSameUse(s: State, path: nat, pins: Pins)
    requires path in s.slots && s.slots[path] < |s.heap|
    ensures SameUse(s, Evict(s, path, pins))
  {
  }

  lemma {:induction false} EvictAllSameUse(s: State, limit: nat, bytes: nat, paths: seq<nat>, pins: Pins)
    requires Evicts(s, limit, bytes, paths, pins)
    ensures SameUse(s, EvictAll(s, limit, bytes, paths, pins))
    decreases |paths|
  {
    if paths != [] {
      var evicted := Evict(s, paths[0], pins);
      EvictSameUse(s, paths[0], pins);
      EvictAllSameUse(evicted, limit, bytes, paths[1..], pins);
      SameUseTrans(s, evicted, EvictAll(s, limit, bytes, paths, pins));
    }
  }

  lemma WithoutIndexSameUse(s: System, id: nat, state: State)
    requires id < |s.threads|
    ensures SameUse(state, WithoutIndex(s, id, state))
  {
  }

  lemma LeaveSameUse(s: System, id: nat, state: State, k: nat)
    requires id < |s.threads| && k < |state.heap|
    ensures var freed := WithoutIndex(s, id, state); k < |freed.heap| && SameUse(state, Drop(s, id, freed, k))
  {
    var freed := WithoutIndex(s, id, state);
    WithoutIndexSameUse(s, id, state);
    DropSameUse(freed, k, HeldByOther(s.threads, id, k), OtherPins(s.threads, id));
    SameUseTrans(state, freed, Drop(s, id, freed, k));
  }

  lemma ReserveSameUse(s: System, c: Config, id: nat, rowCount: nat, evicted: seq<nat>)
    requires id < |s.threads| && Evicts(s.state, c.limit, rowCount * ROW_BYTES, evicted, OtherPins(s.threads, id))
    ensures SameUse(s.state, AfterReserve(s, c, id, rowCount, evicted).state)
  {
    var state := EvictAll(s.state, c.limit, rowCount * ROW_BYTES, evicted, OtherPins(s.threads, id));
    EvictAllSameUse(s.state, c.limit, rowCount * ROW_BYTES, evicted, OtherPins(s.threads, id));
    AllocateSameUse(state, rowCount * ROW_BYTES, s.threads[id].slot);
    SameUseTrans(s.state, state, Allocate(state, rowCount * ROW_BYTES, s.threads[id].slot));
  }

  lemma AllocateSameUse(s: State, bytes: nat, owner: nat)
    ensures SameUse(s, Allocate(s, bytes, owner))
  {
  }

  lemma StopSameUse(s: State, k: nat)
    requires k < |s.heap|
    ensures SameUse(s, StopLoading(s, k))
  {
  }

  lemma PublishSameUse(s: State, path: nat, k: nat, same: bool, index: Option<nat>)
    requires k < |s.heap| && (index.Some? ==> index.value < |s.indexes|)
    ensures SameUse(s, Publish(s, path, k, same, index).0)
  {
  }

  // What a step does -------------------------------------------------------------------------------------

  function VisitsOf(s: State, path: nat): nat {
    if path in s.slots && s.slots[path] < |s.heap| then s.heap[s.slots[path]].visits else 0
  }

  /** The path has been given a new slot in place of the one it had. */
  predicate Replaced(s: State, r: State, path: nat) {
    path in s.slots && path in r.slots && r.slots[path] != s.slots[path]
  }

  ghost predicate PathKept(s: State, r: State, path: nat) {
    path in r.slots ==>
      && path in s.slots && LastUse(r, path) == LastUse(s, path)
      && VisitsOf(r, path) == if Replaced(s, r, path) then 1 else VisitsOf(s, path)
  }

  ghost predicate PathVisited(s: State, r: State, path: nat) {
    path in r.slots && LastUse(r, path) == r.clock && VisitsOf(r, path) == VisitsOf(s, path) + 1
  }

  predicate IsVisitOf(step: Step, path: nat) {
    step.Visit? && step.path == path
  }

  /** A visit is the latest one of its path; nothing else changes the counters. */
  ghost predicate Counts(s: State, r: State, step: Step) {
    && r.clock == (if step.Visit? then s.clock + 1 else s.clock)
    && (step.Visit? ==> PathVisited(s, r, step.path))
    && forall path: nat :: !IsVisitOf(step, path) ==> PathKept(s, r, path)
  }

  lemma SameUseCounts(s: State, r: State, step: Step)
    requires SameUse(s, r) && TableOk(s) && !step.Visit?
    ensures Counts(s, r, step)
  {
    forall path: nat ensures PathKept(s, r, path) {
      if path in s.slots {
        assert SameSlotUse(s, r, s.slots[path]);
      }
    }
  }

  lemma CompareCounts(s: System, id: nat, step: Step)
    requires id < |s.threads| && s.threads[id].slot < |s.state.heap| && TableOk(s.state) && step == CompareStep(id)
    ensures Counts(s.state, AfterCompare(s, id).state, step)
  {
    var t := s.threads[id];
    var (state, outcome) := Compare(s.state, t.path, t.slot, t.fingerprint, id);
    if outcome.Miss? {
      DropSameUse(state, t.slot, HeldByOther(s.threads, id, t.slot), OtherPins(s.threads, id));
      var left := Drop(s, id, state, t.slot);
      forall path: nat ensures PathKept(s.state, left, path) {
        if path in left.slots {
          assert SameSlotUse(state, left, left.slots[path]);
        }
      }
    } else {
      SameUseCounts(s.state, state, step);
    }
  }

  lemma VisitCounts(s: System, id: nat, path: nat, warm: bool, victim: nat)
    requires id < |s.threads| && TableOk(s.state)
    ensures Counts(s.state, AfterVisit(s, id, path, warm, victim).state, Visit(id, path, warm, victim))
  {
    var room := MakeRoom(s, id, path, victim);
    RoomKeeps(s, id, path, victim);
    VisitRoom(s.state, room, id, path, warm, victim);
  }

  /** Erasing a victim changes the counters of no other path. */
  lemma RoomKeeps(s: System, id: nat, path: nat, victim: nat)
    requires id < |s.threads| && TableOk(s.state)
    ensures var room := MakeRoom(s, id, path, victim);
            && room.clock == s.state.clock && (path in room.slots <==> path in s.state.slots)
            && forall other: nat :: PathStays(s.state, room, other)
  {
    if path !in s.state.slots && |s.state.slots| == MAX_TRACKED_SHARDS && victim in s.state.slots {
      var without := s.state.(slots := s.state.slots - {victim});
      DropSameUse(without, s.state.slots[victim], HeldByOther(s.threads, id, s.state.slots[victim]), OtherPins(s.threads, id));
      var room := MakeRoom(s, id, path, victim);
      forall other: nat ensures PathStays(s.state, room, other) {
        if other in room.slots {
          assert SameSlotUse(without, room, room.slots[other]);
        }
      }
    }
  }

  ghost predicate PathStays(s: State, r: State, path: nat) {
    path in r.slots ==>
      && path in s.slots && r.slots[path] == s.slots[path] < |r.heap| && r.heap[r.slots[path]].path == path
      && LastUse(r, path) == LastUse(s, path) && VisitsOf(r, path) == VisitsOf(s, path)
  }

  lemma VisitRoom(s: State, room: State, id: nat, path: nat, warm: bool, victim: nat)
    requires room.clock == s.clock && (path in room.slots <==> path in s.slots)
    requires forall other: nat :: PathStays(s, room, other)
    ensures var (tracked, k) := Tracked(room, path);
            k < |tracked.heap| && Counts(s, Touch(tracked, k), Visit(id, path, warm, victim))
  {
    assert PathStays(s, room, path);
    var (tracked, k) := Tracked(room, path);
    var r := Touch(tracked, k);
    forall other: nat | other != path ensures PathKept(s, r, other) {
      assert PathStays(s, room, other);
    }
  }

  lemma StepCounts(c: Config, s: System, step: Step)
    requires Inv(c, s) && Enabled(c, s, step)
    ensures Counts(s.state, Next(c, s, step).state, step)
  {
    match step
    case Visit(id, path, warm, victim) => VisitCounts(s, id, path, warm, victim);
    case CompareStep(id) => CompareCounts(s, id, step);
    case _ =>
      OtherStepSameUse(c, s, step);
      SameUseCounts(s.state, Next(c, s, step).state, step);
  }

  lemma OtherStepSameUse(c: Config, s: System, step: Step)
    requires Inv(c, s) && Enabled(c, s, step) && !step.Visit? && !step.CompareStep?
    ensures SameUse(s.state, Next(c, s, step).state)
  {
    match step
    case Replace(file, version) =>
    case Identify(id) =>
    case ReserveStep(id, rowCount, evicted) =>
      ReserveSameUse(s, c, id, rowCount, evicted);
    case Read(id, raw, rows) => WithoutIndexSameUse(s, id, s.state);
    case GiveUp(id) => WithoutIndexSameUse(s, id, s.state);
    case Throw(id) =>
      var t := s.threads[id];
      if IsLoader(t) {
        StopSameUse(s.state, t.slot);
        var stopped := StopLoading(s.state, t.slot);
        LeaveSameUse(s, id, stopped, t.slot);
        SameUseTrans(s.state, stopped, Next(c, s, step).state);
      } else {
        LeaveSameUse(s, id, s.state, t.slot);
      }
    case Recheck(id) =>
    case PublishStep(id) =>
      var t := s.threads[id];
      PublishSameUse(s.state, t.path, t.slot, t.same, t.index);
      var state := Publish(s.state, t.path, t.slot, t.same, t.index).0;
      LeaveSameUse(s, id, state, t.slot);
      SameUseTrans(s.state, state, Drop(s, id, WithoutIndex(s, id, state), t.slot));
    case Release(id) => WithoutIndexSameUse(s, id, s.state);
  }

  // Runs -------------------------------------------------------------------------------------------------

  /** Number of the last of the first n steps that visits the path, counted from one. */
  function LastVisit(steps: seq<Step>, n: nat, path: nat): nat
    requires n <= |steps|
  {
    if n == 0 then 0 else if IsVisitOf(steps[n - 1], path) then n else LastVisit(steps, n - 1, path)
  }

  /** Visits among the first n steps. */
  function VisitCount(steps: seq<Step>, n: nat): nat
    requires n <= |steps|
  {
    if n == 0 then 0 else VisitCount(steps, n - 1) + if steps[n - 1].Visit? then 1 else 0
  }

  /** Visits of the path since it was last taken up; the slot that takes the place of a replaced file's counts as one. */
  function Seen(states: seq<System>, steps: seq<Step>, n: nat, path: nat): nat
    requires n <= |steps| && |states| == |steps| + 1
  {
    if n == 0 then 0
    else if IsVisitOf(steps[n - 1], path) then
      if path in states[n - 1].state.slots then Seen(states, steps, n - 1, path) + 1 else 1
    else if Replaced(states[n - 1].state, states[n].state, path) then 1
    else Seen(states, steps, n - 1, path)
  }

  ghost predicate UseIs(s: State, states: seq<System>, steps: seq<Step>, n: nat, path: nat)
    requires n <= |steps| && |states| == |steps| + 1
  {
    path in s.slots ==>
      && 0 < LastVisit(steps, n, path) <= n && steps[LastVisit(steps, n, path) - 1].Visit?
      && LastUse(s, path) == VisitCount(steps, LastVisit(steps, n, path))
      && VisitsOf(s, path) == Seen(states, steps, n, path)
  }

  ghost predicate UsesAre(s: State, states: seq<System>, steps: seq<Step>, n: nat)
    requires n <= |steps| && |states| == |steps| + 1
  {
    s.clock == VisitCount(steps, n) && forall path: nat :: UseIs(s, states, steps, n, path)
  }

  lemma OneMoreUse(s: State, r: State, states: seq<System>, steps: seq<Step>, n: nat, path: nat)
    requires 0 < n <= |steps| && |states| == |steps| + 1 && states[n - 1].state == s && states[n].state == r
    requires Counts(s, r, steps[n - 1]) && UseIs(s, states, steps, n - 1, path) && s.clock == VisitCount(steps, n - 1)
    ensures UseIs(r, states, steps, n, path)
  {
    if !IsVisitOf(steps[n - 1], path) {
      assert PathKept(s, r, path);
    }
  }

  lemma {:induction false} RunCountsUses(c: Config, states: seq<System>, steps: seq<Step>, n: nat)
    requires IsRun(c, states, steps) && n <= |steps|
    ensures UsesAre(states[n].state, states, steps, n)
  {
    if n > 0 {
      RunCountsUses(c, states, steps, n - 1);
      RunKeepsInv(c, states, steps, n - 1);
      assert IsStep(c, states[n - 1], steps[n - 1], states[n]);
      StepCounts(c, states[n - 1], steps[n - 1]);
      forall path: nat ensures UseIs(states[n].state, states, steps, n, path) {
        assert UseIs(states[n - 1].state, states, steps, n - 1, path);
        OneMoreUse(states[n - 1].state, states[n].state, states, steps, n, path);
      }
    }
  }

  lemma {:induction false} CountGrows(steps: seq<Step>, m: nat, n: nat)
    requires m <= n <= |steps|
    ensures VisitCount(steps, m) <= VisitCount(steps, n)
    ensures m < n && steps[n - 1].Visit? ==> VisitCount(steps, m) < VisitCount(steps, n)
  {
    if m < n {
      CountGrows(steps, m, n - 1);
    }
  }

  /** Slots are in the order of the last visits of their shards. */
  lemma UsedInOrderOfVisits(c: Config, states: seq<System>, steps: seq<Step>, n: nat, p: nat, q: nat)
    requires IsRun(c, states, steps) && n <= |steps| && p in states[n].state.slots && q in states[n].state.slots
    ensures LastUse(states[n].state, p) <= LastUse(states[n].state, q) <==> LastVisit(steps, n, p) <= LastVisit(steps, n, q)
  {
    var a := UsedAtLastVisit(c, states, steps, n, p);
    var b := UsedAtLastVisit(c, states, steps, n, q);
    VisitsInOrder(steps, a, b);
  }

  lemma UsedAtLastVisit(c: Config, states: seq<System>, steps: seq<Step>, n: nat, path: nat) returns (last: nat)
    requires IsRun(c, states, steps) && n <= |steps| && path in states[n].state.slots
    ensures last == LastVisit(steps, n, path) && 0 < last <= n && steps[last - 1].Visit?
    ensures LastUse(states[n].state, path) == VisitCount(steps, last)
  {
    RunCountsUses(c, states, steps, n);
    assert UseIs(states[n].state, states, steps, n, path);
    last := LastVisit(steps, n, path);
  }

  lemma VisitsInOrder(steps: seq<Step>, a: nat, b: nat)
    requires 0 < a <= |steps| && 0 < b <= |steps| && steps[a - 1].Visit? && steps[b - 1].Visit?
    ensures VisitCount(steps, a) <= VisitCount(steps, b) <==> a <= b
  {
    if a <= b {
      CountGrows(steps, a, b);
    } else {
      CountGrows(steps, b, a);
    }
  }

  /** The slot that makes room for a 65th shard is the one whose last visit is the earliest. */
  lemma OldestIsLeastRecentlyVisited(c: Config, states: seq<System>, steps: seq<Step>, n: nat, path: nat)
    requires IsRun(c, states, steps) && n <= |steps|
    ensures var s := states[n].state;
            IsOldest(s, path) <==>
            path in s.slots && forall p :: p in s.slots ==> LastVisit(steps, n, path) <= LastVisit(steps, n, p)
  {
    var s := states[n].state;
    if path in s.slots {
      forall p | p in s.slots
        ensures LastUse(s, path) <= LastUse(s, p) <==> LastVisit(steps, n, path) <= LastVisit(steps, n, p)
      {
        UsedInOrderOfVisits(c, states, steps, n, path, p);
      }
    }
  }

  /** The first index to be evicted is that of the shard whose last visit is the earliest. */
  lemma EvictedIsLeastRecentlyVisited(c: Config, states: seq<System>, steps: seq<Step>, n: nat, path: nat)
    requires IsRun(c, states, steps) && n <= |steps|
    ensures var s := states[n].state;
            IsOldestIndexed(s, path) <==>
            HasIndex(s, path) && forall p :: p in s.slots && HasIndex(s, p) ==> LastVisit(steps, n, path) <= LastVisit(steps, n, p)
  {
    var s := states[n].state;
    if HasIndex(s, path) {
      forall p | p in s.slots
        ensures LastUse(s, path) <= LastUse(s, p) <==> LastVisit(steps, n, path) <= LastVisit(steps, n, p)
      {
        UsedInOrderOfVisits(c, states, steps, n, path, p);
      }
    }
  }

  /** After a visit that was the `seen`-th of its shard, the thread goes on to look for an index from the third visit on,
      if the request is large enough and nobody is loading one; otherwise the shard is queried. */
  ghost predicate LeadsOn(s: System, id: nat, path: nat, warm: bool, seen: nat) {
    && id < |s.threads| && path in s.state.slots && s.state.slots[path] < |s.state.heap|
    && s.threads[id].phase == if seen >= 3 && warm && !s.state.heap[s.state.slots[path]].loading then Visited else Idle
  }

  /** The visits counted are those made in the run. */
  lemma IndexedFromThirdVisit(c: Config, states: seq<System>, steps: seq<Step>, k: nat, id: nat, path: nat, warm: bool, victim: nat)
    requires IsRun(c, states, steps) && k < |steps| && steps[k] == Visit(id, path, warm, victim)
    ensures LeadsOn(states[k + 1], id, path, warm, Seen(states, steps, k + 1, path))
  {
    RunKeepsInv(c, states, steps, k);
    assert IsStep(c, states[k], steps[k], states[k + 1]);
    VisitLeads(c, states[k], id, path, warm, victim);
    VisitsAreSeen(c, states, steps, k + 1, path);
  }

  lemma VisitsAreSeen(c: Config, states: seq<System>, steps: seq<Step>, n: nat, path: nat)
    requires IsRun(c, states, steps) && n <= |steps| && path in states[n].state.slots
    ensures VisitsOf(states[n].state, path) == Seen(states, steps, n, path)
  {
    RunCountsUses(c, states, steps, n);
    assert UseIs(states[n].state, states, steps, n, path);
  }

  /** Up to 64 shards are tracked; a further one takes the place of the shard whose last visit is the earliest. */
  lemma SixtyFourAreTracked(c: Config, states: seq<System>, steps: seq<Step>, k: nat)
    requires IsRun(c, states, steps) && k < |steps| && steps[k].Visit?
    ensures var Visit(_, path, _, victim) := steps[k];
            var before, after := states[k].state.slots.Keys, states[k + 1].state.slots.Keys;
            |before| <= 64 &&
            if path in before || |before| < 64 then after == before + {path}
            else && after == before - {victim} + {path} && victim in before
                 && forall p :: p in before ==> LastVisit(steps, k, victim) <= LastVisit(steps, k, p)
  {
    var Visit(id, path, warm, victim) := steps[k];
    RunKeepsInv(c, states, steps, k);
    assert IsStep(c, states[k], steps[k], states[k + 1]);
    VisitTracks(c, states[k], id, path, warm, victim);
    OldestIsLeastRecentlyVisited(c, states, steps, k, victim);
    assert |states[k].state.slots| == |states[k].state.slots.Keys|;
  }

  lemma VisitTracks(c: Config, s: System, id: nat, path: nat, warm: bool, victim: nat)
    requires Inv(c, s) && Enabled(c, s, Visit(id, path, warm, victim))
    ensures var before, after := s.state.slots.Keys, AfterVisit(s, id, path, warm, victim).state.slots.Keys;
            if path in before || |s.state.slots| < 64 then after == before + {path}
            else victim in before && IsOldest(s.state, victim) && after == before - {victim} + {path}
  {
    var room := MakeRoom(s, id, path, victim);
    RoomHas(s, id, path, victim);
    TrackedHas(room, path);
  }

  lemma RoomHas(s: System, id: nat, path: nat, victim: nat)
    requires id < |s.threads| && TableOk(s.state)
    requires path !in s.state.slots && |s.state.slots| == MAX_TRACKED_SHARDS ==> victim in s.state.slots
    ensures MakeRoom(s, id, path, victim).slots.Keys ==
            if path !in s.state.slots && |s.state.slots| == MAX_TRACKED_SHARDS then s.state.slots.Keys - {victim}
            else s.state.slots.Keys
  {
    if path !in s.state.slots && |s.state.slots| == MAX_TRACKED_SHARDS {
      assert (s.state.slots - {victim}).Keys == s.state.slots.Keys - {victim};
    }
  }

  lemma TrackedHas(s: State, path: nat)
    requires path in s.slots ==> s.slots[path] < |s.heap|
    ensures var (tracked, k) := Tracked(s, path);
            k < |tracked.heap| && Touch(tracked, k).slots.Keys == s.slots.Keys + {path}
  {
  }

  lemma VisitLeads(c: Config, s: System, id: nat, path: nat, warm: bool, victim: nat)
    requires Inv(c, s) && Enabled(c, s, Visit(id, path, warm, victim))
    ensures var r := AfterVisit(s, id, path, warm, victim); LeadsOn(r, id, path, warm, VisitsOf(r.state, path))
  {
    var room := MakeRoom(s, id, path, victim);
    MakeRoomOk(c, s, id, path, victim);
    TrackedOk(c, room, path, OtherPins(s.threads, id));
  }
}
