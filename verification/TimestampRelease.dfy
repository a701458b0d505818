/** No memory is kept for nothing: in every run, each live index is in use by a thread or belongs to a slot, and a slot
    with an index is tracked or in a thread's hands. */
module TimestampRelease {
  import opened Collections
  import opened TimestampRows
  import opened TimestampSlots
  import opened TimestampInvariant
  import opened TimestampRuns

  /** Slots that threads refer to. */
  type Holders = nat -> bool

  ghost predicate SlotHeld(s: State, held: Holders, k: nat) {
    k < |s.heap| && s.heap[k].index.Some? ==> IsCurrent(s, s.heap[k].path, k) || held(k)
  }

  ghost predicate SlotsHeld(s: State, held: Holders) {
    forall k: nat :: SlotHeld(s, held, k)
  }

  ghost predicate IndexHeld(s: State, pins: Pins, i: nat) {
    i < |s.indexes| && s.indexes[i].live ==> pins(i) || Owned(s, i)
  }

  ghost predicate IndexesHeld(s: State, pins: Pins) {
    forall i: nat :: IndexHeld(s, pins, i)
  }

  /** Everything is held by slots and by these references of threads. */
  ghost predicate Held(s: State, pins: Pins, held: Holders) {
    SlotsHeld(s, held) && IndexesHeld(s, pins)
  }

  /** With one more reference. */
  ghost function And(refs: nat -> bool, x: Option<nat>): nat -> bool {
    (y: nat) => refs(y) || x == Some(y)
  }

  ghost predicate Includes(more: nat -> bool, refs: nat -> bool) {
    forall x: nat :: refs(x) ==> more(x)
  }

  lemma MoreRefs(s: State, pins: Pins, held: Holders, morePins: Pins, moreHeld: Holders)
    requires Held(s, pins, held) && Includes(morePins, pins) && Includes(moreHeld, held)
    ensures Held(s, morePins, moreHeld)
  {
    forall k: nat ensures SlotHeld(s, moreHeld, k) {
      assert SlotHeld(s, held, k);
    }
    forall i: nat ensures IndexHeld(s, morePins, i) {
      assert IndexHeld(s, pins, i);
    }
  }

  // Sections -----------------------------------------------------------------------------------------------

  /** An index that only this thread refers to is freed with its last reference. */
  lemma UnpinReleases(s: State, i: nat, pins: Pins, held: Holders)
    requires i < |s.indexes| && Held(s, And(pins, Some(i)), held)
    ensures Held(Unpin(s, i, pins), pins, held)
  {
    var r := Unpin(s, i, pins);
    forall k: nat ensures SlotHeld(r, held, k) {
      assert SlotHeld(s, held, k);
    }
    forall j: nat ensures IndexHeld(r, pins, j) {
      assert IndexHeld(s, And(pins, Some(i)), j);
    }
  }

  lemma ClearReleases(c: Config, s: State, k: nat, pins: Pins, held: Holders, before: Holders)
    requires SlotsOk(c, s) && k < |s.heap| && Held(s, pins, before)
    requires forall x: nat :: x != k && before(x) ==> held(x)
    ensures Held(ClearIndex(s, k, pins), pins, held)
  {
    var r := ClearIndex(s, k, pins);
    assert SlotOk(c, s, k);
    forall x: nat ensures SlotHeld(r, held, x) {
      assert SlotHeld(s, before, x);
    }
    forall j: nat ensures IndexHeld(r, pins, j) {
      assert IndexHeld(s, pins, j);
    }
  }

  /** A slot that is neither tracked nor in other hands gives up its index. */
  lemma DropReleases(c: Config, s: State, k: nat, held: Holders, pins: Pins)
    requires SlotsOk(c, s) && k < |s.heap| && Held(s, pins, And(held, Some(k)))
    ensures Held(DropSlot(s, k, held(k), pins), pins, held)
  {
    if held(k) || IsCurrent(s, s.heap[k].path, k) {
      forall x: nat ensures SlotHeld(s, held, x) {
        assert SlotHeld(s, And(held, Some(k)), x);
      }
    } else {
      ClearReleases(c, s, k, pins, held, And(held, Some(k)));
    }
  }

  lemma EraseReleases(c: Config, s: State, victim: nat, held: Holders, pins: Pins)
    requires StateOk(c, s) && Held(s, pins, held) && victim in s.slots
    ensures Held(Erase(s, victim, held(s.slots[victim]), pins), pins, held)
  {
    var k := s.slots[victim];
    var without := s.(slots := s.slots - {victim});
    forall x: nat ensures SlotHeld(without, And(held, Some(k)), x) && SlotOk(c, without, x) {
      assert SlotHeld(s, held, x) && SlotOk(c, s, x);
    }
    forall i: nat ensures IndexHeld(without, pins, i) {
      assert IndexHeld(s, pins, i);
    }
    DropReleases(c, without, k, held, pins);
  }

  lemma EvictReleases(c: Config, s: State, path: nat, pins: Pins, held: Holders)
    requires StateOk(c, s) && Held(s, pins, held) && path in s.slots
    ensures Held(Evict(s, path, pins), pins, held)
  {
    var k := s.slots[path];
    var skipped := s.(heap := s.heap[k := s.heap[k].(skipped := true)]);
    forall x: nat ensures SlotHeld(skipped, held, x) && SlotOk(c, skipped, x) {
      assert SlotHeld(s, held, x) && SlotOk(c, s, x);
    }
    forall i: nat ensures IndexHeld(skipped, pins, i) {
      assert IndexHeld(s, pins, i);
    }
    ClearReleases(c, skipped, k, pins, held, held);
  }

  lemma {:induction false} EvictAllReleases(c: Config, s: State, bytes: nat, paths: seq<nat>, pins: Pins, held: Holders)
    requires StateOk(c, s) && Evicts(s, c.limit, bytes, paths, pins) && Held(s, pins, held)
    ensures Held(EvictAll(s, c.limit, bytes, paths, pins), pins, held)
    decreases |paths|
  {
    if paths != [] {
      var evicted := Evict(s, paths[0], pins);
      EvictReleases(c, s, paths[0], pins, held);
      EvictOk(c, s, paths[0], pins);
      EvictAllReleases(c, evicted, bytes, paths[1..], pins, held);
    }
  }

  lemma AllocateHolds(s: State, bytes: nat, owner: nat, pins: Pins, held: Holders)
    requires Held(s, pins, held)
    ensures Held(Allocate(s, bytes, owner), And(pins, Some(|s.indexes|)), held)
  {
    var r := Allocate(s, bytes, owner);
    forall k: nat ensures SlotHeld(r, held, k) {
      assert SlotHeld(s, held, k);
    }
    forall i: nat ensures IndexHeld(r, And(pins, Some(|s.indexes|)), i) {
      assert IndexHeld(s, pins, i);
    }
  }

  lemma TrackedHolds(s: State, path: nat, pins: Pins, held: Holders)
    requires Held(s, pins, held)
    ensures Held(Tracked(s, path).0, pins, held)
  {
    var r := Tracked(s, path).0;
    if path !in s.slots {
      forall k: nat ensures SlotHeld(r, held, k) {
        assert SlotHeld(s, held, k);
      }
      forall i: nat ensures IndexHeld(r, pins, i) {
        assert IndexHeld(s, pins, i);
      }
    }
  }

  /** A slot that changes, but not its index or path. */
  lemma SlotChangeHolds(s: State, k: nat, slot: Slot, clock: nat, pins: Pins, held: Holders)
    requires Held(s, pins, held) && k < |s.heap| && slot.index == s.heap[k].index && slot.path == s.heap[k].path
    ensures Held(s.(heap := s.heap[k := slot], clock := clock), pins, held)
  {
    var r := s.(heap := s.heap[k := slot], clock := clock);
    forall x: nat ensures SlotHeld(r, held, x) {
      assert SlotHeld(s, held, x);
    }
    forall i: nat ensures IndexHeld(r, pins, i) {
      assert IndexHeld(s, pins, i);
    }
  }

  lemma StoreHolds(s: State, i: nat, rows: seq<IndexRow>, pins: Pins, held: Holders)
    requires Held(s, pins, held) && i < |s.indexes|
    ensures Held(StoreRows(s, i, rows), pins, held)
  {
    var r := StoreRows(s, i, rows);
    forall x: nat ensures SlotHeld(r, held, x) {
      assert SlotHeld(s, held, x);
    }
    forall j: nat ensures IndexHeld(r, pins, j) {
      assert IndexHeld(s, pins, j);
    }
  }

  /** The slot of a replaced file is no longer tracked, but still in this thread's hands. */
  lemma CompareHolds(s: State, path: nat, k: nat, fingerprint: nat, thread: nat, pins: Pins, held: Holders)
    requires TableOk(s) && k < |s.heap| && Held(s, pins, And(held, Some(k)))
    ensures Held(Compare(s, path, k, fingerprint, thread).0, pins, And(held, Some(k)))
    ensures Compare(s, path, k, fingerprint, thread).1.Hit? ==> Held(s, pins, held)
  {
    var (r, outcome) := Compare(s, path, k, fingerprint, thread);
    forall x: nat ensures SlotHeld(r, And(held, Some(k)), x) && (outcome.Hit? ==> SlotHeld(s, held, x)) {
      assert SlotHeld(s, And(held, Some(k)), x);
    }
    forall i: nat ensures IndexHeld(r, pins, i) {
      assert IndexHeld(s, pins, i);
    }
  }

  lemma PublishHolds(s: State, path: nat, k: nat, index: Option<nat>, pins: Pins, held: Holders)
    requires k < |s.heap| && (index.Some? ==> index.value < |s.indexes| && s.indexes[index.value].owner == k)
    requires s.heap[k].index.None? && s.heap[k].path == path && IsCurrent(s, path, k) && Held(s, And(pins, index), And(held, Some(k)))
    ensures Held(Publish(s, path, k, true, index).0, And(pins, index), held)
  {
    var r := Publish(s, path, k, true, index).0;
    forall x: nat ensures SlotHeld(r, held, x) {
      assert SlotHeld(s, And(held, Some(k)), x);
    }
    forall i: nat ensures IndexHeld(r, And(pins, index), i) {
      assert IndexHeld(s, And(pins, index), i);
    }
  }

  // Threads ------------------------------------------------------------------------------------------------

  ghost function OtherHolders(threads: seq<Thread>, id: nat): Holders {
    (k: nat) => HeldByOther(threads, id, k)
  }

  function OwnSlot(t: Thread): Option<nat> {
    if HoldsSlot(t) then Some(t.slot) else None
  }

  ghost predicate Refers(threads: seq<Thread>, t: nat, i: nat) {
    t < |threads| && threads[t].index == Some(i)
  }

  ghost predicate HoldsIt(threads: seq<Thread>, t: nat, k: nat) {
    t < |threads| && OwnSlot(threads[t]) == Some(k)
  }

  ghost function AllPins(threads: seq<Thread>): Pins {
    (i: nat) => exists t: nat :: Refers(threads, t, i)
  }

  ghost function AllHolders(threads: seq<Thread>): Holders {
    (k: nat) => exists t: nat :: HoldsIt(threads, t, k)
  }

  ghost predicate NoLeak(s: System) {
    Held(s.state, AllPins(s.threads), AllHolders(s.threads))
  }

  lemma SplitRefs(threads: seq<Thread>, id: nat)
    requires id < |threads|
    ensures Includes(And(OtherPins(threads, id), threads[id].index), AllPins(threads))
    ensures Includes(And(OtherHolders(threads, id), OwnSlot(threads[id])), AllHolders(threads))
  {
    forall i: nat | AllPins(threads)(i) ensures And(OtherPins(threads, id), threads[id].index)(i) {
      var t: nat :| Refers(threads, t, i);
    }
    forall k: nat | AllHolders(threads)(k) ensures And(OtherHolders(threads, id), OwnSlot(threads[id]))(k) {
      var t: nat :| HoldsIt(threads, t, k);
    }
  }

  lemma JoinRefs(threads: seq<Thread>, id: nat, t: Thread)
    requires id < |threads|
    ensures Includes(AllPins(threads[id := t]), And(OtherPins(threads, id), t.index))
    ensures Includes(AllHolders(threads[id := t]), And(OtherHolders(threads, id), OwnSlot(t)))
  {
    var after := threads[id := t];
    assert after[id] == t;
    forall i: nat | And(OtherPins(threads, id), t.index)(i) ensures AllPins(after)(i) {
      if t.index == Some(i) {
        assert Refers(after, id, i);
      } else {
        var o: nat :| o < |threads| && o != id && threads[o].index == Some(i);
        assert Refers(after, o, i);
      }
    }
    forall k: nat | And(OtherHolders(threads, id), OwnSlot(t))(k) ensures AllHolders(after)(k) {
      if OwnSlot(t) == Some(k) {
        assert HoldsIt(after, id, k);
      } else {
        var o: nat :| o < |threads| && o != id && HoldsSlot(threads[o]) && threads[o].slot == k;
        assert HoldsIt(after, o, k);
      }
    }
  }

  /** What thread `id` holds beside the others. */
  lemma Before(s: System, id: nat)
    requires NoLeak(s) && id < |s.threads|
    ensures Held(s.state, And(OtherPins(s.threads, id), s.threads[id].index), And(OtherHolders(s.threads, id), OwnSlot(s.threads[id])))
    ensures s.threads[id].index.None? ==> Held(s.state, OtherPins(s.threads, id), And(OtherHolders(s.threads, id), OwnSlot(s.threads[id])))
    ensures s.threads[id].index.None? && !HoldsSlot(s.threads[id]) ==> Held(s.state, OtherPins(s.threads, id), OtherHolders(s.threads, id))
  {
    var pins, held := OtherPins(s.threads, id), OtherHolders(s.threads, id);
    SplitRefs(s.threads, id);
    MoreRefs(s.state, AllPins(s.threads), AllHolders(s.threads), And(pins, s.threads[id].index), And(held, OwnSlot(s.threads[id])));
    if s.threads[id].index.None? {
      MoreRefs(s.state, And(pins, None), And(held, OwnSlot(s.threads[id])), pins, And(held, OwnSlot(s.threads[id])));
      if !HoldsSlot(s.threads[id]) {
        MoreRefs(s.state, pins, And(held, None), pins, held);
      }
    }
  }

  lemma After(s: System, id: nat, state: State, t: Thread)
    requires id < |s.threads|
    requires Held(state, And(OtherPins(s.threads, id), t.index), And(OtherHolders(s.threads, id), OwnSlot(t)))
    ensures NoLeak(WithThread(s, id, state, t))
  {
    JoinRefs(s.threads, id, t);
    MoreRefs(state, And(OtherPins(s.threads, id), t.index), And(OtherHolders(s.threads, id), OwnSlot(t)),
             AllPins(s.threads[id := t]), AllHolders(s.threads[id := t]));
  }

  /** A thread left without an index, or without a slot either. */
  lemma AfterAll(s: System, id: nat, state: State, t: Thread, held: Holders)
    requires id < |s.threads| && Held(state, OtherPins(s.threads, id), held)
    requires Includes(And(OtherHolders(s.threads, id), OwnSlot(t)), held)
    ensures NoLeak(WithThread(s, id, state, t))
  {
    MoreRefs(state, OtherPins(s.threads, id), held, And(OtherPins(s.threads, id), t.index), And(OtherHolders(s.threads, id), OwnSlot(t)));
    After(s, id, state, t);
  }

  lemma VisitReleases(c: Config, s: System, id: nat, path: nat, warm: bool, victim: nat)
    requires Inv(c, s) && NoLeak(s) && Enabled(c, s, Visit(id, path, warm, victim))
    ensures NoLeak(AfterVisit(s, id, path, warm, victim))
  {
    var pins, held := OtherPins(s.threads, id), OtherHolders(s.threads, id);
    var room := MakeRoom(s, id, path, victim);
    RoomReleases(c, s, id, path, victim);
    MakeRoomOk(c, s, id, path, victim);
    TrackedHolds(room, path, pins, held);
    TrackedOk(c, room, path, pins);
    var (tracked, k) := Tracked(room, path);
    TouchReleases(s, id, tracked, k, Visitor(Touch(tracked, k), path, k, warm, Version(s, path)));
  }

  lemma RoomReleases(c: Config, s: System, id: nat, path: nat, victim: nat)
    requires Inv(c, s) && NoLeak(s) && Enabled(c, s, Visit(id, path, false, victim))
    ensures Held(MakeRoom(s, id, path, victim), OtherPins(s.threads, id), OtherHolders(s.threads, id))
  {
    assert ThreadInv(c, s, id);
    Before(s, id);
    if path !in s.state.slots && |s.state.slots| == MAX_TRACKED_SHARDS {
      EraseReleases(c, s.state, victim, OtherHolders(s.threads, id), OtherPins(s.threads, id));
    }
  }

  lemma TouchReleases(s: System, id: nat, tracked: State, k: nat, t: Thread)
    requires id < |s.threads| && k < |tracked.heap| && Held(tracked, OtherPins(s.threads, id), OtherHolders(s.threads, id))
    ensures NoLeak(WithThread(s, id, Touch(tracked, k), t))
  {
    var pins, held := OtherPins(s.threads, id), OtherHolders(s.threads, id);
    SlotChangeHolds(tracked, k, Touch(tracked, k).heap[k], tracked.clock + 1, pins, held);
    AfterAll(s, id, Touch(tracked, k), t, held);
  }

  lemma CompareReleases(c: Config, s: System, id: nat)
    requires Inv(c, s) && NoLeak(s) && Enabled(c, s, CompareStep(id))
    ensures NoLeak(AfterCompare(s, id))
  {
    var t, pins, held := s.threads[id], OtherPins(s.threads, id), OtherHolders(s.threads, id);
    assert ThreadInv(c, s, id);
    Before(s, id);
    var (state, outcome) := Compare(s.state, t.path, t.slot, t.fingerprint, id);
    CompareHolds(s.state, t.path, t.slot, t.fingerprint, id, pins, held);
    CompareOk(c, s.state, t.path, t.slot, t.fingerprint, id, pins);
    match outcome
    case Miss =>
      DropReleases(c, state, t.slot, held, pins);
      AfterAll(s, id, Drop(s, id, state, t.slot), IDLE, held);
    case Hit(i) => AfterAll(s, id, state, t.(phase := Using, index := Some(i)), held);
    case StartLoad => AfterAll(s, id, state, t.(phase := Loading), And(held, Some(t.slot)));
  }

  lemma ReserveReleases(c: Config, s: System, id: nat, rowCount: nat, evicted: seq<nat>)
    requires Inv(c, s) && NoLeak(s) && Enabled(c, s, ReserveStep(id, rowCount, evicted))
    ensures NoLeak(AfterReserve(s, c, id, rowCount, evicted))
  {
    var t, pins := s.threads[id], OtherPins(s.threads, id);
    var held := And(OtherHolders(s.threads, id), Some(t.slot));
    assert ThreadInv(c, s, id);
    Before(s, id);
    var r := AfterReserve(s, c, id, rowCount, evicted);
    if rowCount > c.limit / ROW_BYTES {
      AfterAll(s, id, s.state, r.threads[id], held);
    } else {
      var bytes := rowCount * ROW_BYTES;
      var state := EvictAll(s.state, c.limit, bytes, evicted, pins);
      EvictAllReleases(c, s.state, bytes, evicted, pins, held);
      if Fits(state, c.limit, bytes) {
        AllocateHolds(state, bytes, t.slot, pins, held);
        After(s, id, r.state, r.threads[id]);
      } else {
        AfterAll(s, id, state, r.threads[id], held);
      }
    }
  }

  lemma WithoutIndexReleases(s: System, id: nat, state: State, held: Holders)
    requires id < |s.threads| && Held(state, And(OtherPins(s.threads, id), s.threads[id].index), held)
    requires s.threads[id].index.Some? ==> s.threads[id].index.value < |state.indexes|
    ensures Held(WithoutIndex(s, id, state), OtherPins(s.threads, id), held)
  {
    match s.threads[id].index
    case None => MoreRefs(state, And(OtherPins(s.threads, id), None), held, OtherPins(s.threads, id), held);
    case Some(i) => UnpinReleases(state, i, OtherPins(s.threads, id), held);
  }

  lemma GiveUpReleases(c: Config, s: System, id: nat)
    requires Inv(c, s) && NoLeak(s) && id < |s.threads|
    ensures NoLeak(AfterGiveUp(s, id)) || !HoldsSlot(s.threads[id])
    ensures NoLeak(WithThread(s, id, WithoutIndex(s, id, s.state), IDLE)) || HoldsSlot(s.threads[id])
  {
    var t := s.threads[id];
    var held := And(OtherHolders(s.threads, id), OwnSlot(t));
    assert ThreadInv(c, s, id);
    Before(s, id);
    WithoutIndexReleases(s, id, s.state, held);
    if HoldsSlot(t) {
      AfterAll(s, id, WithoutIndex(s, id, s.state), t.(phase := Loaded, index := None), held);
    } else {
      AfterAll(s, id, WithoutIndex(s, id, s.state), IDLE, held);
    }
  }

  lemma LeaveReleases(c: Config, s: System, id: nat, state: State)
    requires id < |s.threads| && s.threads[id].slot < |state.heap| && StateOk(c, state)
    requires s.threads[id].index.Some? ==>
               s.threads[id].index.value < |state.indexes| && state.indexes[s.threads[id].index.value].live
    requires Held(state, And(OtherPins(s.threads, id), s.threads[id].index), And(OtherHolders(s.threads, id), Some(s.threads[id].slot)))
    ensures var freed := WithoutIndex(s, id, state);
            && s.threads[id].slot < |freed.heap|
            && NoLeak(WithThread(s, id, Drop(s, id, freed, s.threads[id].slot), IDLE))
  {
    var k, pins, held := s.threads[id].slot, OtherPins(s.threads, id), OtherHolders(s.threads, id);
    var freed := WithoutIndex(s, id, state);
    WithoutIndexReleases(s, id, state, And(held, Some(k)));
    WithoutIndexOk(c, s, id, state);
    DropReleases(c, freed, k, held, pins);
    AfterAll(s, id, Drop(s, id, freed, k), IDLE, held);
  }

  lemma ThrowReleases(c: Config, s: System, id: nat)
    requires Inv(c, s) && NoLeak(s) && Enabled(c, s, Throw(id))
    ensures NoLeak(AfterThrow(s, id))
  {
    var t := s.threads[id];
    assert ThreadInv(c, s, id);
    Before(s, id);
    if IsLoader(t) {
      StopLoadingOk(c, s.state, t.slot, OtherPins(s.threads, id));
      SlotChangeHolds(s.state, t.slot, s.state.heap[t.slot].(loading := false), s.state.clock,
                      And(OtherPins(s.threads, id), t.index), And(OtherHolders(s.threads, id), Some(t.slot)));
      LeaveReleases(c, s, id, StopLoading(s.state, t.slot));
    } else {
      LeaveReleases(c, s, id, s.state);
    }
  }

  lemma PublishReleases(c: Config, s: System, id: nat)
    requires Inv(c, s) && NoLeak(s) && Enabled(c, s, PublishStep(id))
    ensures NoLeak(AfterPublish(s, id))
  {
    var t, pins, held := s.threads[id], OtherPins(s.threads, id), OtherHolders(s.threads, id);
    assert ThreadInv(c, s, id);
    Before(s, id);
    if t.same && IsCurrent(s.state, t.path, t.slot) {
      PublishHolds(s.state, t.path, t.slot, t.index, pins, held);
      var r := AfterPublish(s, id);
      MoreRefs(r.state, And(pins, t.index), held, And(pins, r.threads[id].index), And(held, OwnSlot(r.threads[id])));
      After(s, id, r.state, r.threads[id]);
    } else {
      StopLoadingOk(c, s.state, t.slot, pins);
      SlotChangeHolds(s.state, t.slot, s.state.heap[t.slot].(loading := false), s.state.clock, And(pins, t.index), And(held, Some(t.slot)));
      LeaveReleases(c, s, id, StopLoading(s.state, t.slot));
    }
  }

  lemma ReadReleases(c: Config, s: System, id: nat, raw: seq<RawRow>, rows: seq<IndexRow>)
    requires Inv(c, s) && NoLeak(s) && Enabled(c, s, Read(id, raw, rows))
    ensures NoLeak(AfterRead(s, id, raw, rows))
  {
    var t := s.threads[id];
    assert ThreadInv(c, s, id);
    if |Keep(raw)| > t.rowCount {
      GiveUpReleases(c, s, id);
    } else {
      Before(s, id);
      StoreHolds(s.state, t.index.value, rows, And(OtherPins(s.threads, id), t.index), And(OtherHolders(s.threads, id), OwnSlot(t)));
      After(s, id, StoreRows(s.state, t.index.value, rows), t.(phase := Loaded));
    }
  }

  lemma StepKeepsNoLeak(c: Config, s: System, step: Step)
    requires Inv(c, s) && NoLeak(s) && Enabled(c, s, step)
    ensures NoLeak(Next(c, s, step))
  {
    match step
    case Replace(file, version) =>
    case Visit(id, path, warm, victim) => VisitReleases(c, s, id, path, warm, victim);
    case Identify(id) =>
      Before(s, id);
      After(s, id, s.state, Next(c, s, step).threads[id]);
    case CompareStep(id) => CompareReleases(c, s, id);
    case ReserveStep(id, rowCount, evicted) => ReserveReleases(c, s, id, rowCount, evicted);
    case Read(id, raw, rows) => ReadReleases(c, s, id, raw, rows);
    case GiveUp(id) => GiveUpReleases(c, s, id);
    case Throw(id) => ThrowReleases(c, s, id);
    case Recheck(id) =>
      Before(s, id);
      After(s, id, s.state, Next(c, s, step).threads[id]);
    case PublishStep(id) => PublishReleases(c, s, id);
    case Release(id) => GiveUpReleases(c, s, id);
  }

  lemma {:induction false} RunKeepsNoLeak(c: Config, states: seq<System>, steps: seq<Step>, k: nat)
    requires IsRun(c, states, steps) && k <= |steps|
    ensures NoLeak(states[k])
  {
    if k > 0 {
      RunKeepsNoLeak(c, states, steps, k - 1);
      RunKeepsInv(c, states, steps, k - 1);
      assert IsStep(c, states[k - 1], steps[k - 1], states[k]);
      StepKeepsNoLeak(c, states[k - 1], steps[k - 1]);
    }
  }

  /** In every state of every run, an index that takes memory is in use by a thread, or it is the index of its slot, which
      is then tracked or in the hands of a thread; with no thread in a call, it is the index of a tracked shard. */
  lemma LiveIndexHasAUser(c: Config, states: seq<System>, steps: seq<Step>, n: nat, i: nat)
    requires IsRun(c, states, steps) && n <= |steps|
    requires i < |states[n].state.indexes| && states[n].state.indexes[i].live
    ensures var s := states[n].state;
            var k := s.indexes[i].owner;
            || (exists t: nat :: Refers(states[n].threads, t, i))
            || (k < |s.heap| && s.heap[k].index == Some(i)
                && (IsCurrent(s, s.heap[k].path, k) || exists t: nat :: HoldsIt(states[n].threads, t, k)))
  {
    RunKeepsNoLeak(c, states, steps, n);
    var s, threads := states[n].state, states[n].threads;
    assert IndexHeld(s, AllPins(threads), i);
    assert SlotHeld(s, AllHolders(threads), s.indexes[i].owner);
  }
}
