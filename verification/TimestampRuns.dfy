/** Runs of concurrent lookups over shards that may be replaced at any time. A file's version stands
    for its fingerprint: versions are never reused, and a file whose version is the same before and
    after a read was read as that version. */
module TimestampRuns {
  import opened Collections
  import opened TimestampRows
  import opened TimestampSlots
  import opened TimestampInvariant
  import opened Sums

  datatype Phase = Idle | Visited | Identified | Loading | Reading | Loaded | Checked | Using

  /** A thread inside GetIndex, or using the index it got. `since` is the version of the file when the
      call began, `fingerprint` the one read during the call. */
  datatype Thread = Thread(phase: Phase, path: nat, slot: nat, since: nat, fingerprint: nat, rowCount: nat,
                           index: Option<nat>, same: bool)

  datatype System = System(state: State, threads: seq<Thread>, versions: map<nat, nat>)

  datatype Step =
    | Replace(file: nat, version: nat)
    | Visit(id: nat, path: nat, warm: bool, victim: nat)
    | Identify(id: nat)
    | CompareStep(id: nat)
    | ReserveStep(id: nat, rowCount: nat, evicted: seq<nat>)
    | Read(id: nat, raw: seq<RawRow>, rows: seq<IndexRow>)
    | GiveUp(id: nat)
    | Throw(id: nat)
    | Recheck(id: nat)
    | PublishStep(id: nat)
    | Release(id: nat)

  const IDLE := Thread(Idle, 0, 0, 0, 0, 0, None, false)

  predicate HoldsSlot(t: Thread) {
    t.phase != Idle && t.phase != Using
  }

  predicate IsLoader(t: Thread) {
    t.phase == Loading || t.phase == Reading || t.phase == Loaded || t.phase == Checked
  }

  function Version(s: System, path: nat): nat {
    if path in s.versions then s.versions[path] else 0
  }

  /** Indexes that threads other than `id` refer to. */
  ghost function OtherPins(threads: seq<Thread>, id: nat): Pins {
    i => exists t: nat :: t < |threads| && t != id && threads[t].index == Some(i)
  }

  /** Does a thread other than `id` refer to slot k? */
  ghost predicate HeldByOther(threads: seq<Thread>, id: nat, k: nat) {
    exists t: nat :: t < |threads| && t != id && HoldsSlot(threads[t]) && threads[t].slot == k
  }

  function WithThread(s: System, id: nat, state: State, t: Thread): System
    requires id < |s.threads|
  {
    s.(state := state, threads := s.threads[id := t])
  }

  // Steps --------------------------------------------------------------------------------------------

  ghost function MakeRoom(s: System, id: nat, path: nat, victim: nat): State
    requires victim in s.state.slots ==> s.state.slots[victim] < |s.state.heap|
  {
    if path !in s.state.slots && |s.state.slots| == MAX_TRACKED_SHARDS && victim in s.state.slots then
      Erase(s.state, victim, HeldByOther(s.threads, id, s.state.slots[victim]), OtherPins(s.threads, id))
    else s.state
  }

  /** The thread goes on only with a shard worth indexing. */
  function Visitor(state: State, path: nat, k: nat, warm: bool, version: nat): Thread
    requires k < |state.heap|
  {
    if Eligible(state.heap[k], warm) then IDLE.(phase := Visited, path := path, slot := k, since := version) else IDLE
  }

  ghost function AfterVisit(s: System, id: nat, path: nat, warm: bool, victim: nat): System
    requires id < |s.threads| && TableOk(s.state)
  {
    var (tracked, k) := Tracked(MakeRoom(s, id, path, victim), path);
    if k >= |tracked.heap| then s
    else
      var state := Touch(tracked, k);
      WithThread(s, id, state, Visitor(state, path, k, warm, Version(s, path)))
  }

  ghost function Drop(s: System, id: nat, state: State, k: nat): State
    requires k < |state.heap|
  {
    DropSlot(state, k, HeldByOther(s.threads, id, k), OtherPins(s.threads, id))
  }

  ghost function AfterCompare(s: System, id: nat): System
    requires id < |s.threads| && s.threads[id].slot < |s.state.heap|
  {
    var t := s.threads[id];
    var (state, outcome) := Compare(s.state, t.path, t.slot, t.fingerprint, id);
    match outcome
    case Miss => WithThread(s, id, Drop(s, id, state, t.slot), IDLE)
    case Hit(i) => WithThread(s, id, state, t.(phase := Using, index := Some(i)))
    case StartLoad => WithThread(s, id, state, t.(phase := Loading))
  }

  ghost function AfterReserve(s: System, c: Config, id: nat, rowCount: nat, evicted: seq<nat>): System
    requires id < |s.threads| && Evicts(s.state, c.limit, rowCount * ROW_BYTES, evicted, OtherPins(s.threads, id))
  {
    var t := s.threads[id];
    if rowCount > c.limit / ROW_BYTES then WithThread(s, id, s.state, t.(phase := Loaded))
    else
      var bytes := rowCount * ROW_BYTES;
      var state := EvictAll(s.state, c.limit, bytes, evicted, OtherPins(s.threads, id));
      if Fits(state, c.limit, bytes) then
        WithThread(s, id, Allocate(state, bytes, t.slot),
                   t.(phase := Reading, rowCount := rowCount, index := Some(|state.indexes|)))
      else WithThread(s, id, state, t.(phase := Loaded))
  }

  /** The state once thread `id` no longer refers to its index. */
  ghost function WithoutIndex(s: System, id: nat, state: State): State
    requires id < |s.threads|
  {
    match s.threads[id].index
    case None => state
    case Some(i) => if i < |state.indexes| then Unpin(state, i, OtherPins(s.threads, id)) else state
  }

  ghost function AfterGiveUp(s: System, id: nat): System
    requires id < |s.threads|
  {
    WithThread(s, id, WithoutIndex(s, id, s.state), s.threads[id].(phase := Loaded, index := None))
  }

  ghost function AfterRead(s: System, id: nat, raw: seq<RawRow>, rows: seq<IndexRow>): System
    requires id < |s.threads|
  {
    var t := s.threads[id];
    if t.index.None? || t.index.value >= |s.state.indexes| || |Keep(raw)| > t.rowCount then AfterGiveUp(s, id)
    else WithThread(s, id, StoreRows(s.state, t.index.value, rows), t.(phase := Loaded))
  }

  ghost function AfterThrow(s: System, id: nat): System
    requires id < |s.threads| && s.threads[id].slot < |s.state.heap|
  {
    var t := s.threads[id];
    var stopped := if IsLoader(t) then StopLoading(s.state, t.slot) else s.state;
    var state := WithoutIndex(s, id, stopped);
    WithThread(s, id, if t.slot < |state.heap| then Drop(s, id, state, t.slot) else state, IDLE)
  }

  ghost function AfterPublish(s: System, id: nat): System
    requires id < |s.threads| && s.threads[id].slot < |s.state.heap|
    requires s.threads[id].index.Some? ==> s.threads[id].index.value < |s.state.indexes|
  {
    var t := s.threads[id];
    var (state, done) := Publish(s.state, t.path, t.slot, t.same, t.index);
    if done then WithThread(s, id, state, if t.index.Some? then t.(phase := Using) else IDLE)
    else
      var freed := WithoutIndex(s, id, state);
      WithThread(s, id, if t.slot < |freed.heap| then Drop(s, id, freed, t.slot) else freed, IDLE)
  }

  /** References lead somewhere; every reachable state has this, by the invariant below. */
  ghost predicate WellFormed(s: System, id: nat) {
    && id < |s.threads| && TableOk(s.state)
    && (HoldsSlot(s.threads[id]) ==> s.threads[id].slot < |s.state.heap|)
    && (s.threads[id].index.Some? ==> s.threads[id].index.value < |s.state.indexes|)
  }

  ghost predicate Running(s: System, id: nat, phase: Phase) {
    WellFormed(s, id) && s.threads[id].phase == phase
  }

  /** The victim is the least recently used slot, the evicted indexes are taken in order of last use until
      the reservation fits or nothing is left to evict, and an unchanged file is read as it is. */
  ghost predicate Enabled(c: Config, s: System, step: Step) {
    match step
    case Replace(file, version) => version > Version(s, file)
    case Visit(id, path, _, victim) =>
      && Running(s, id, Idle)
      && (path !in s.state.slots && |s.state.slots| == MAX_TRACKED_SHARDS ==> IsOldest(s.state, victim))
    case Identify(id) => Running(s, id, Visited)
    case CompareStep(id) => Running(s, id, Identified)
    case ReserveStep(id, rowCount, evicted) =>
      && Running(s, id, Loading)
      && Evicts(s.state, c.limit, rowCount * ROW_BYTES, evicted, OtherPins(s.threads, id))
      && (rowCount <= c.limit / ROW_BYTES ==>
            var state := EvictAll(s.state, c.limit, rowCount * ROW_BYTES, evicted, OtherPins(s.threads, id));
            Fits(state, c.limit, rowCount * ROW_BYTES) || forall path :: path in state.slots ==> !HasIndex(state, path))
    case Read(id, raw, rows) =>
      && Running(s, id, Reading) && Indexes(rows, raw)
      && (Version(s, s.threads[id].path) == s.threads[id].fingerprint ==>
            raw == c.contents(s.threads[id].path, s.threads[id].fingerprint))
    case GiveUp(id) => Running(s, id, Loading) || Running(s, id, Reading)
    case Throw(id) => WellFormed(s, id) && HoldsSlot(s.threads[id])
    case Recheck(id) => Running(s, id, Loaded)
    case PublishStep(id) => Running(s, id, Checked)
    case Release(id) => Running(s, id, Using)
  }

  ghost function Next(c: Config, s: System, step: Step): System
    requires Enabled(c, s, step)
  {
    match step
    case Replace(file, version) => s.(versions := s.versions[file := version])
    case Visit(id, path, warm, victim) => AfterVisit(s, id, path, warm, victim)
    case Identify(id) =>
      WithThread(s, id, s.state, s.threads[id].(phase := Identified, fingerprint := Version(s, s.threads[id].path)))
    case CompareStep(id) => AfterCompare(s, id)
    case ReserveStep(id, rowCount, evicted) => AfterReserve(s, c, id, rowCount, evicted)
    case Read(id, raw, rows) => AfterRead(s, id, raw, rows)
    case GiveUp(id) => AfterGiveUp(s, id)
    case Throw(id) => AfterThrow(s, id)
    case Recheck(id) =>
      var t := s.threads[id];
      WithThread(s, id, s.state, t.(phase := Checked, same := Version(s, t.path) == t.fingerprint))
    case PublishStep(id) => AfterPublish(s, id)
    case Release(id) => WithThread(s, id, WithoutIndex(s, id, s.state), IDLE)
  }

  // The invariant ------------------------------------------------------------------------------------

  /** Thread `id` on a file that is now at `version`. */
  ghost predicate ThreadOk(c: Config, s: State, version: nat, id: nat, t: Thread) {
    && (HoldsSlot(t) ==> t.slot < |s.heap| && s.heap[t.slot].path == t.path && t.since <= version)
    && ((HoldsSlot(t) && t.phase != Visited) || t.phase == Using ==> t.since <= t.fingerprint <= version)
    && (IsLoader(t) ==> LoaderOk(s, id, t))
    && (t.index.Some? ==> t.index.value < |s.indexes| && s.indexes[t.index.value].live && (IsLoader(t) || t.phase == Using))
    && (t.phase == Loading ==> t.index.None?)
    && (t.phase == Reading ==> t.index.Some?)
    && (t.phase == Using ==>
          && t.index.Some? && s.indexes[t.index.value].published
          && Indexes(s.indexes[t.index.value].rows, c.contents(t.path, t.fingerprint)))
    && (IsLoader(t) && t.index.Some? && t.phase != Reading && (if t.phase == Loaded then version == t.fingerprint else t.same) ==>
          Indexes(s.indexes[t.index.value].rows, c.contents(t.path, t.fingerprint)))
  }

  /** The slot is marked by this loader alone, and an index it holds is its own. */
  ghost predicate LoaderOk(s: State, id: nat, t: Thread) {
    && t.slot < |s.heap|
    && s.heap[t.slot].loading && s.heap[t.slot].loader == id && s.heap[t.slot].index == None
    && s.heap[t.slot].fingerprint == Some(t.fingerprint)
    && (t.index.Some? ==> t.index.value < |s.indexes| && s.indexes[t.index.value].owner == t.slot
                          && !s.indexes[t.index.value].published)
  }

  ghost predicate ThreadInv(c: Config, s: System, id: nat) {
    id < |s.threads| ==> ThreadOk(c, s.state, Version(s, s.threads[id].path), id, s.threads[id])
  }

  ghost predicate Inv(c: Config, s: System) {
    StateOk(c, s.state) && forall id: nat :: ThreadInv(c, s, id)
  }

  ghost predicate Start(s: System) {
    && s.state == State(map[], [], 0, [], 0, 0)
    && forall id: nat :: id < |s.threads| ==> s.threads[id] == IDLE
  }

  ghost predicate IsRun(c: Config, states: seq<System>, steps: seq<Step>) {
    && |states| == |steps| + 1 && Start(states[0])
    && forall k: nat :: k < |steps| ==> IsStep(c, states[k], steps[k], states[k + 1])
  }

  ghost predicate IsStep(c: Config, s: System, step: Step, r: System) {
    Enabled(c, s, step) && r == Next(c, s, step)
  }

  // Every step keeps the invariant -------------------------------------------------------------------

  /** A thread whose slot and indexes were left alone is fine. */
  lemma OtherThreadOk(c: Config, s: State, r: State, version: nat, id: nat, t: Thread, pins: Pins, mine: int)
    requires Kept(s, r, pins, mine) && ThreadOk(c, s, version, id, t)
    requires t.index.Some? ==> pins(t.index.value)
    requires IsLoader(t) ==> t.slot != mine
    ensures ThreadOk(c, r, version, id, t)
  {
    assert SlotKept(s, r, t.slot, mine);
    if t.index.Some? {
      assert IndexKept(s, r, t.index.value, pins, mine);
    }
  }

  lemma StepOk(c: Config, s: System, id: nat, state: State, t: Thread, mine: int)
    requires Inv(c, s) && id < |s.threads|
    requires StateOk(c, state) && Kept(s.state, state, OtherPins(s.threads, id), mine)
    requires mine != -1 ==> 0 <= mine < |s.state.heap| && (s.state.heap[mine].loading ==> s.state.heap[mine].loader == id)
    requires ThreadOk(c, state, Version(s, t.path), id, t)
    ensures Inv(c, WithThread(s, id, state, t))
  {
    var r := WithThread(s, id, state, t);
    forall other: nat ensures ThreadInv(c, r, other) {
      assert ThreadInv(c, s, other);
      if other < |s.threads| && other != id {
        OtherThreadOk(c, s.state, state, Version(s, s.threads[other].path), other, s.threads[other],
                      OtherPins(s.threads, id), mine);
      }
    }
  }

  lemma KeptItself(s: State, pins: Pins)
    ensures Kept(s, s, pins, -1)
  {
  }

  lemma ReplaceOk(c: Config, s: System, file: nat, version: nat)
    requires Inv(c, s) && version > Version(s, file)
    ensures Inv(c, s.(versions := s.versions[file := version]))
  {
    var r := s.(versions := s.versions[file := version]);
    forall id: nat ensures ThreadInv(c, r, id) {
      assert ThreadInv(c, s, id);
    }
  }

  lemma MakeRoomOk(c: Config, s: System, id: nat, path: nat, victim: nat)
    requires StateOk(c, s.state)
    requires path !in s.state.slots && |s.state.slots| == MAX_TRACKED_SHARDS ==> victim in s.state.slots
    ensures var room := MakeRoom(s, id, path, victim);
            && StateOk(c, room) && Kept(s.state, room, OtherPins(s.threads, id), -1)
            && (path in room.slots || |room.slots| < MAX_TRACKED_SHARDS)
  {
    var pins := OtherPins(s.threads, id);
    if path !in s.state.slots && |s.state.slots| == MAX_TRACKED_SHARDS {
      EraseOk(c, s.state, victim, HeldByOther(s.threads, id, s.state.slots[victim]), pins);
      assert (s.state.slots - {victim}).Keys == s.state.slots.Keys - {victim};
    } else {
      KeptItself(s.state, pins);
    }
  }

  lemma TrackedOk(c: Config, s: State, path: nat, pins: Pins)
    requires StateOk(c, s) && (path in s.slots || |s.slots| < MAX_TRACKED_SHARDS)
    ensures var (tracked, k) := Tracked(s, path);
            && StateOk(c, tracked) && Kept(s, tracked, pins, -1)
            && IsCurrent(tracked, path, k) && k < |tracked.heap|
  {
    if path !in s.slots {
      AddSlotOk(c, s, NewSlot(path), pins);
    } else {
      KeptItself(s, pins);
    }
  }

  lemma VisitOk(c: Config, s: System, id: nat, path: nat, warm: bool, victim: nat)
    requires Inv(c, s) && Enabled(c, s, Visit(id, path, warm, victim))
    ensures Inv(c, AfterVisit(s, id, path, warm, victim))
  {
    var room := MakeRoom(s, id, path, victim);
    MakeRoomOk(c, s, id, path, victim);
    var (tracked, k) := Tracked(room, path);
    TrackedOk(c, room, path, OtherPins(s.threads, id));
    VisitTracked(c, s, id, path, warm, room, tracked, k);
  }

  lemma VisitTracked(c: Config, s: System, id: nat, path: nat, warm: bool, room: State, tracked: State, k: nat)
    requires Inv(c, s) && id < |s.threads|
    requires Kept(s.state, room, OtherPins(s.threads, id), -1) && Kept(room, tracked, OtherPins(s.threads, id), -1)
    requires StateOk(c, tracked) && k < |tracked.heap| && tracked.heap[k].path == path
    ensures Inv(c, WithThread(s, id, Touch(tracked, k), Visitor(Touch(tracked, k), path, k, warm, Version(s, path))))
  {
    var pins, touched := OtherPins(s.threads, id), Touch(tracked, k);
    KeptTrans(s.state, room, tracked, pins, -1);
    TouchOk(c, tracked, k, pins);
    KeptTrans(s.state, tracked, touched, pins, -1);
    assert touched.heap[k].path == path;
    StepOk(c, s, id, touched, Visitor(touched, path, k, warm, Version(s, path)), -1);
  }

  lemma DropOk(c: Config, s: System, id: nat, state: State, k: nat)
    requires StateOk(c, state) && k < |state.heap|
    ensures StateOk(c, Drop(s, id, state, k)) && Kept(state, Drop(s, id, state, k), OtherPins(s.threads, id), -1)
  {
    DropSlotOk(c, state, k, HeldByOther(s.threads, id, k), OtherPins(s.threads, id));
  }

  /** A thread that gives up its slot. */
  lemma MissOk(c: Config, s: System, id: nat, state: State, k: nat)
    requires Inv(c, s) && id < |s.threads| && k < |state.heap|
    requires StateOk(c, state) && Kept(s.state, state, OtherPins(s.threads, id), -1)
    ensures Inv(c, WithThread(s, id, Drop(s, id, state, k), IDLE))
  {
    DropOk(c, s, id, state, k);
    KeptTrans(s.state, state, Drop(s, id, state, k), OtherPins(s.threads, id), -1);
    StepOk(c, s, id, Drop(s, id, state, k), IDLE, -1);
  }

  lemma CompareStepOk(c: Config, s: System, id: nat)
    requires Inv(c, s) && Enabled(c, s, CompareStep(id))
    ensures Inv(c, AfterCompare(s, id))
  {
    var t, pins := s.threads[id], OtherPins(s.threads, id);
    assert ThreadInv(c, s, id);
    var (state, outcome) := Compare(s.state, t.path, t.slot, t.fingerprint, id);
    CompareOk(c, s.state, t.path, t.slot, t.fingerprint, id, pins);
    match outcome
    case Miss => MissOk(c, s, id, state, t.slot);
    case Hit(i) =>
      KeptItself(s.state, pins);
      StepOk(c, s, id, state, t.(phase := Using, index := Some(i)), -1);
    case StartLoad =>
      StepOk(c, s, id, state, t.(phase := Loading), t.slot);
  }

  lemma AllocateStepOk(c: Config, s: System, id: nat, state: State, rowCount: nat, bytes: nat)
    requires Inv(c, s) && id < |s.threads| && s.threads[id].phase == Loading
    requires StateOk(c, state) && Kept(s.state, state, OtherPins(s.threads, id), -1) && Fits(state, c.limit, bytes)
    requires ThreadOk(c, state, Version(s, s.threads[id].path), id, s.threads[id])
    ensures var t := s.threads[id];
            Inv(c, WithThread(s, id, Allocate(state, bytes, t.slot),
                              t.(phase := Reading, rowCount := rowCount, index := Some(|state.indexes|))))
  {
    var t, pins := s.threads[id], OtherPins(s.threads, id);
    var grown := Allocate(state, bytes, t.slot);
    AllocateOk(c, state, bytes, t.slot, pins);
    KeptTrans(s.state, state, grown, pins, -1);
    StepOk(c, s, id, grown, t.(phase := Reading, rowCount := rowCount, index := Some(|state.indexes|)), -1);
  }

  lemma ReserveStepOk(c: Config, s: System, id: nat, rowCount: nat, evicted: seq<nat>)
    requires Inv(c, s) && Enabled(c, s, ReserveStep(id, rowCount, evicted))
    ensures Inv(c, AfterReserve(s, c, id, rowCount, evicted))
  {
    var t, pins := s.threads[id], OtherPins(s.threads, id);
    assert ThreadInv(c, s, id);
    if rowCount > c.limit / ROW_BYTES {
      KeptItself(s.state, pins);
      StepOk(c, s, id, s.state, t.(phase := Loaded), -1);
    } else {
      var bytes := rowCount * ROW_BYTES;
      var state := EvictAll(s.state, c.limit, bytes, evicted, pins);
      EvictAllOk(c, s.state, bytes, evicted, pins);
      OtherThreadOk(c, s.state, state, Version(s, t.path), id, t, pins, -1);
      if Fits(state, c.limit, bytes) {
        AllocateStepOk(c, s, id, state, rowCount, bytes);
      } else {
        StepOk(c, s, id, state, t.(phase := Loaded), -1);
      }
    }
  }

  lemma WithoutIndexOk(c: Config, s: System, id: nat, state: State)
    requires id < |s.threads| && StateOk(c, state)
    requires var index := s.threads[id].index;
             index.Some? ==> index.value < |state.indexes| && state.indexes[index.value].live
    ensures StateOk(c, WithoutIndex(s, id, state))
    ensures Kept(state, WithoutIndex(s, id, state), OtherPins(s.threads, id), -1)
  {
    match s.threads[id].index
    case None => KeptItself(state, OtherPins(s.threads, id));
    case Some(i) => UnpinOk(c, state, i, OtherPins(s.threads, id));
  }

  lemma GiveUpOk(c: Config, s: System, id: nat)
    requires Inv(c, s) && Enabled(c, s, GiveUp(id))
    ensures Inv(c, AfterGiveUp(s, id))
  {
    var t, pins := s.threads[id], OtherPins(s.threads, id);
    assert ThreadInv(c, s, id);
    var state := WithoutIndex(s, id, s.state);
    WithoutIndexOk(c, s, id, s.state);
    OtherThreadOk(c, s.state, state, Version(s, t.path), id, t.(phase := Loading, index := None), pins, -1);
    StepOk(c, s, id, state, t.(phase := Loaded, index := None), -1);
  }

  lemma ReadOk(c: Config, s: System, id: nat, raw: seq<RawRow>, rows: seq<IndexRow>)
    requires Inv(c, s) && Enabled(c, s, Read(id, raw, rows))
    ensures Inv(c, AfterRead(s, id, raw, rows))
  {
    var t, pins := s.threads[id], OtherPins(s.threads, id);
    assert ThreadInv(c, s, id);
    if |Keep(raw)| > t.rowCount {
      GiveUpOk(c, s, id);
    } else {
      var i := t.index.value;
      OwnIndexOk(c, s.state, i, s.state.indexes[i].(rows := rows), pins, t.slot);
      StepOk(c, s, id, StoreRows(s.state, i, rows), t.(phase := Loaded), t.slot);
    }
  }

  lemma ThrowOk(c: Config, s: System, id: nat)
    requires Inv(c, s) && Enabled(c, s, Throw(id))
    ensures Inv(c, AfterThrow(s, id))
  {
    var t, pins := s.threads[id], OtherPins(s.threads, id);
    assert ThreadInv(c, s, id);
    var mine := if IsLoader(t) then t.slot else -1;
    var stopped := if IsLoader(t) then StopLoading(s.state, t.slot) else s.state;
    if IsLoader(t) {
      StopLoadingOk(c, s.state, t.slot, pins);
    } else {
      KeptItself(s.state, pins);
    }
    LeaveOk(c, s, id, stopped, mine);
  }

  /** A thread that gives up its index and its slot. */
  lemma LeaveOk(c: Config, s: System, id: nat, state: State, mine: int)
    requires Inv(c, s) && id < |s.threads| && HoldsSlot(s.threads[id])
    requires s.threads[id].slot < |state.heap|
    requires StateOk(c, state) && Kept(s.state, state, OtherPins(s.threads, id), mine)
    requires mine != -1 ==> 0 <= mine < |s.state.heap| && (s.state.heap[mine].loading ==> s.state.heap[mine].loader == id)
    requires s.threads[id].index.Some? ==>
               s.threads[id].index.value < |state.indexes| && state.indexes[s.threads[id].index.value].live
    ensures var freed := WithoutIndex(s, id, state);
            && s.threads[id].slot < |freed.heap|
            && Inv(c, WithThread(s, id, Drop(s, id, freed, s.threads[id].slot), IDLE))
  {
    var t, pins := s.threads[id], OtherPins(s.threads, id);
    var freed := WithoutIndex(s, id, state);
    WithoutIndexOk(c, s, id, state);
    DropOk(c, s, id, freed, t.slot);
    var left := Drop(s, id, freed, t.slot);
    KeptTrans(state, freed, left, pins, -1);
    KeptWeaken(state, left, pins, mine);
    KeptTrans(s.state, state, left, pins, mine);
    StepOk(c, s, id, left, IDLE, mine);
  }

  lemma PublishStepOk(c: Config, s: System, id: nat)
    requires Inv(c, s) && Enabled(c, s, PublishStep(id))
    ensures Inv(c, AfterPublish(s, id))
  {
    var t, pins := s.threads[id], OtherPins(s.threads, id);
    assert ThreadInv(c, s, id);
    var (state, done) := Publish(s.state, t.path, t.slot, t.same, t.index);
    PublishOk(c, s.state, t.path, t.slot, t.same, t.index, pins);
    if done {
      var next := if t.index.Some? then t.(phase := Using) else IDLE;
      StepOk(c, s, id, state, next, t.slot);
      assert AfterPublish(s, id) == WithThread(s, id, state, next);
    } else {
      LeaveOk(c, s, id, state, t.slot);
      var freed := WithoutIndex(s, id, state);
      assert AfterPublish(s, id) == WithThread(s, id, Drop(s, id, freed, t.slot), IDLE);
    }
  }

  lemma ReleaseOk(c: Config, s: System, id: nat)
    requires Inv(c, s) && Enabled(c, s, Release(id))
    ensures Inv(c, WithThread(s, id, WithoutIndex(s, id, s.state), IDLE))
  {
    assert ThreadInv(c, s, id);
    WithoutIndexOk(c, s, id, s.state);
    StepOk(c, s, id, WithoutIndex(s, id, s.state), IDLE, -1);
  }

  lemma SameStateOk(c: Config, s: System, id: nat, t: Thread)
    requires Inv(c, s) && id < |s.threads| && ThreadOk(c, s.state, Version(s, t.path), id, t)
    ensures Inv(c, WithThread(s, id, s.state, t))
  {
    KeptItself(s.state, OtherPins(s.threads, id));
    StepOk(c, s, id, s.state, t, -1);
  }

  lemma StepKeepsInv(c: Config, s: System, step: Step)
    requires Inv(c, s) && Enabled(c, s, step)
    ensures Inv(c, Next(c, s, step))
  {
    match step
    case Replace(file, version) => ReplaceOk(c, s, file, version);
    case Visit(id, path, warm, victim) => VisitOk(c, s, id, path, warm, victim);
    case Identify(id) =>
      assert ThreadInv(c, s, id);
      SameStateOk(c, s, id, s.threads[id].(phase := Identified, fingerprint := Version(s, s.threads[id].path)));
    case CompareStep(id) => CompareStepOk(c, s, id);
    case ReserveStep(id, rowCount, evicted) => ReserveStepOk(c, s, id, rowCount, evicted);
    case Read(id, raw, rows) => ReadOk(c, s, id, raw, rows);
    case GiveUp(id) => GiveUpOk(c, s, id);
    case Throw(id) => ThrowOk(c, s, id);
    case Recheck(id) =>
      assert ThreadInv(c, s, id);
      var t := s.threads[id];
      SameStateOk(c, s, id, t.(phase := Checked, same := Version(s, t.path) == t.fingerprint));
    case PublishStep(id) => PublishStepOk(c, s, id);
    case Release(id) => ReleaseOk(c, s, id);
  }

  lemma StartIsOk(c: Config, s: System)
    requires Start(s)
    ensures Inv(c, s)
  {
    assert Total(LiveBytes, s.state.indexes, 0) == 0;
  }

  lemma {:induction false} RunKeepsInv(c: Config, states: seq<System>, steps: seq<Step>, k: nat)
    requires IsRun(c, states, steps) && k <= |steps|
    ensures Inv(c, states[k])
  {
    if k == 0 {
      StartIsOk(c, states[0]);
    } else {
      RunKeepsInv(c, states, steps, k - 1);
      assert IsStep(c, states[k - 1], steps[k - 1], states[k]);
      StepKeepsInv(c, states[k - 1], steps[k - 1]);
    }
  }

  // What every run guarantees ------------------------------------------------------------------------

  /** An index in use is the index of its file as it was at some moment of the call; if the file has
      not been replaced since the call began, as it is now. Its memory is still reserved. */
  lemma UsedIndexIsTheFile(c: Config, s: System, id: nat)
    requires Inv(c, s) && Running(s, id, Using)
    ensures var t := s.threads[id];
            && t.index.Some? && s.state.indexes[t.index.value].live
            && t.since <= t.fingerprint <= Version(s, t.path)
            && Indexes(s.state.indexes[t.index.value].rows, c.contents(t.path, t.fingerprint))
            && (t.since == Version(s, t.path) ==>
                  Indexes(s.state.indexes[t.index.value].rows, c.contents(t.path, Version(s, t.path))))
  {
    assert ThreadInv(c, s, id);
  }

  /** It stays so while the thread uses it, whatever the other threads do. */
  lemma UsedIndexStays(c: Config, s: System, step: Step, id: nat)
    requires Inv(c, s) && Enabled(c, s, step) && Running(s, id, Using)
    requires s.threads[id].index.Some? && id < |Next(c, s, step).threads| && Next(c, s, step).threads[id] == s.threads[id]
    ensures var i := s.threads[id].index.value;
            && i < |Next(c, s, step).state.indexes| && Next(c, s, step).state.indexes[i].live
            && Indexes(Next(c, s, step).state.indexes[i].rows, c.contents(s.threads[id].path, s.threads[id].fingerprint))
  {
    StepKeepsInv(c, s, step);
    assert ThreadInv(c, s, id) && ThreadInv(c, Next(c, s, step), id);
  }

  /** A slot has at most one loader. */
  lemma OneLoaderPerSlot(c: Config, s: System, a: nat, b: nat)
    requires Inv(c, s) && a < |s.threads| && b < |s.threads|
    requires IsLoader(s.threads[a]) && IsLoader(s.threads[b]) && s.threads[a].slot == s.threads[b].slot
    ensures a == b
  {
    assert ThreadInv(c, s, a) && ThreadInv(c, s, b);
  }

  /** The reservations of all live indexes, pinned and loading ones included, stay within the limit,
      and so does every single one. */
  lemma MemoryIsBounded(c: Config, s: System, i: nat)
    requires Inv(c, s)
    ensures Total(LiveBytes, s.state.indexes, |s.state.indexes|) == s.state.bytes <= s.state.peak <= c.limit
    ensures i < |s.state.indexes| && s.state.indexes[i].live ==> s.state.indexes[i].bytes <= c.limit
  {
    if i < |s.state.indexes| {
      TotalAtLeast(LiveBytes, s.state.indexes, |s.state.indexes|, i);
    }
  }
}
