/** What every locked section of a timestamp lookup keeps: the memory bound, that slots hold indexes
    of their file as of their fingerprint, and that indexes in use stay as they are. */
module TimestampInvariant {
  import opened Collections
  import opened TimestampRows
  import opened TimestampSlots
  import opened Sums

  datatype Config = Config(limit: nat, contents: (nat, nat) -> seq<RawRow>)

  function LiveBytes(index: Index): nat {
    if index.live then index.bytes else 0
  }

  /** Reserved bytes are those of the live indexes and within the limit, as was every earlier sum. */
  ghost predicate BytesOk(c: Config, s: State) {
    s.bytes == Total(LiveBytes, s.indexes, |s.indexes|) && s.bytes <= s.peak <= c.limit
  }

  ghost predicate TableOk(s: State) {
    && |s.slots| <= MAX_TRACKED_SHARDS
    && forall path :: path in s.slots ==> s.slots[path] < |s.heap| && s.heap[s.slots[path]].path == path
  }

  ghost predicate SlotOk(c: Config, s: State, k: nat) {
    k < |s.heap| ==>
      match s.heap[k].index
      case None => true
      case Some(i) =>
        && i < |s.indexes| && s.indexes[i].live && s.indexes[i].owner == k && s.indexes[i].published
        && !s.heap[k].loading && s.heap[k].fingerprint.Some?
        && Indexes(s.indexes[i].rows, c.contents(s.heap[k].path, s.heap[k].fingerprint.value))
  }

  ghost predicate SlotsOk(c: Config, s: State) {
    forall k: nat :: SlotOk(c, s, k)
  }

  ghost predicate OwnerOk(s: State, i: nat) {
    i < |s.indexes| ==> s.indexes[i].owner < |s.heap|
  }

  ghost predicate OwnersOk(s: State) {
    forall i: nat :: OwnerOk(s, i)
  }

  ghost predicate StateOk(c: Config, s: State) {
    BytesOk(c, s) && TableOk(s) && SlotsOk(c, s) && OwnersOk(s)
  }

  // What a section leaves alone: everything other threads rely on ------------------------------------

  /** No slot but `mine` changes, save that it may lose its index. */
  ghost predicate SlotKept(s: State, r: State, k: nat, mine: int) {
    k < |s.heap| ==>
      && k < |r.heap| && r.heap[k].path == s.heap[k].path
      && (k != mine ==>
            && r.heap[k].loading == s.heap[k].loading && r.heap[k].loader == s.heap[k].loader
            && r.heap[k].fingerprint == s.heap[k].fingerprint
            && (r.heap[k].index == s.heap[k].index || r.heap[k].index == None))
  }

  /** No pinned index is freed, and only an unpublished index of `mine` changes otherwise. */
  ghost predicate IndexKept(s: State, r: State, i: nat, pins: Pins, mine: int) {
    i < |s.indexes| ==>
      && i < |r.indexes| && r.indexes[i].owner == s.indexes[i].owner
      && (s.indexes[i].live && pins(i) ==> r.indexes[i].live)
      && (s.indexes[i].published || s.indexes[i].owner != mine ==>
            r.indexes[i].rows == s.indexes[i].rows && r.indexes[i].published == s.indexes[i].published)
  }

  ghost predicate Kept(s: State, r: State, pins: Pins, mine: int) {
    && |s.heap| <= |r.heap| && |s.indexes| <= |r.indexes|
    && (forall k: nat :: SlotKept(s, r, k, mine))
    && (forall i: nat :: IndexKept(s, r, i, pins, mine))
  }

  lemma KeptTrans(s: State, r: State, t: State, pins: Pins, mine: int)
    requires Kept(s, r, pins, mine) && Kept(r, t, pins, mine)
    ensures Kept(s, t, pins, mine)
  {
    forall k: nat ensures SlotKept(s, t, k, mine) {
      assert SlotKept(s, r, k, mine) && SlotKept(r, t, k, mine);
    }
    forall i: nat ensures IndexKept(s, t, i, pins, mine) {
      assert IndexKept(s, r, i, pins, mine) && IndexKept(r, t, i, pins, mine);
    }
  }

  lemma KeptWeaken(s: State, r: State, pins: Pins, mine: int)
    requires Kept(s, r, pins, -1)
    ensures Kept(s, r, pins, mine)
  {
    forall k: nat ensures SlotKept(s, r, k, mine) {
      assert SlotKept(s, r, k, -1);
    }
    forall i: nat ensures IndexKept(s, r, i, pins, mine) {
      assert IndexKept(s, r, i, pins, -1);
    }
  }

  // Freeing ------------------------------------------------------------------------------------------

  lemma FreeBytes(c: Config, s: State, i: nat, pinned: bool)
    requires BytesOk(c, s) && i < |s.indexes| && s.indexes[i].live
    ensures BytesOk(c, Free(s, i, pinned))
  {
    TotalUpdate(LiveBytes, s.indexes, |s.indexes|, i, s.indexes[i].(live := false));
  }

  lemma FreeKeeps(s: State, i: nat, pinned: bool, pins: Pins)
    requires i < |s.indexes| && (pins(i) ==> pinned)
    ensures Kept(s, Free(s, i, pinned), pins, -1)
  {
  }

  lemma FreeSlots(c: Config, s: State, i: nat, pinned: bool)
    requires SlotsOk(c, s) && i < |s.indexes| && (!pinned ==> !Owned(s, i))
    ensures SlotsOk(c, Free(s, i, pinned))
  {
    forall k: nat ensures SlotOk(c, Free(s, i, pinned), k) {
      assert SlotOk(c, s, k);
    }
  }

  lemma FreeOwners(s: State, i: nat, pinned: bool)
    requires OwnersOk(s) && i < |s.indexes|
    ensures OwnersOk(Free(s, i, pinned))
  {
    forall j: nat ensures OwnerOk(Free(s, i, pinned), j) {
      assert OwnerOk(s, j);
    }
  }

  lemma FreeOk(c: Config, s: State, i: nat, pinned: bool, pins: Pins)
    requires StateOk(c, s) && i < |s.indexes| && s.indexes[i].live
    requires (pins(i) ==> pinned) && (!pinned ==> !Owned(s, i))
    ensures StateOk(c, Free(s, i, pinned)) && Kept(s, Free(s, i, pinned), pins, -1)
  {
    FreeBytes(c, s, i, pinned);
    FreeKeeps(s, i, pinned, pins);
    FreeSlots(c, s, i, pinned);
    FreeOwners(s, i, pinned);
  }

  /** Slot k with other contents. */
  function WithSlot(s: State, k: nat, slot: Slot): State
    requires k < |s.heap|
  {
    s.(heap := s.heap[k := slot])
  }

  lemma WithSlotOk(c: Config, s: State, k: nat, slot: Slot)
    requires StateOk(c, s) && k < |s.heap| && slot.path == s.heap[k].path
    requires SlotOk(c, WithSlot(s, k, slot), k)
    ensures StateOk(c, WithSlot(s, k, slot))
  {
    var r := WithSlot(s, k, slot);
    forall j: nat ensures SlotOk(c, r, j) {
      assert SlotOk(c, s, j);
    }
    forall i: nat ensures OwnerOk(r, i) {
      assert OwnerOk(s, i);
    }
  }

  lemma WithSlotKeeps(s: State, k: nat, slot: Slot, pins: Pins, mine: int)
    requires k < |s.heap| && slot.path == s.heap[k].path
    requires k != mine ==>
               && slot.loading == s.heap[k].loading && slot.loader == s.heap[k].loader
               && slot.fingerprint == s.heap[k].fingerprint && (slot.index == s.heap[k].index || slot.index == None)
    ensures Kept(s, WithSlot(s, k, slot), pins, mine)
  {
  }

  lemma ClearIndexOk(c: Config, s: State, k: nat, pins: Pins)
    requires StateOk(c, s) && k < |s.heap|
    ensures StateOk(c, ClearIndex(s, k, pins)) && Kept(s, ClearIndex(s, k, pins), pins, -1)
  {
    assert SlotOk(c, s, k);
    match s.heap[k].index
    case None =>
    case Some(i) =>
      var slot := s.heap[k].(index := None);
      WithSlotOk(c, s, k, slot);
      WithSlotKeeps(s, k, slot, pins, -1);
      FreeOk(c, WithSlot(s, k, slot), i, pins(i), pins);
      KeptTrans(s, WithSlot(s, k, slot), ClearIndex(s, k, pins), pins, -1);
  }

  lemma UnpinOk(c: Config, s: State, i: nat, pins: Pins)
    requires StateOk(c, s) && i < |s.indexes| && s.indexes[i].live
    ensures StateOk(c, Unpin(s, i, pins)) && Kept(s, Unpin(s, i, pins), pins, -1)
  {
    FreeOk(c, s, i, pins(i) || Owned(s, i), pins);
  }

  lemma DropSlotOk(c: Config, s: State, k: nat, held: bool, pins: Pins)
    requires StateOk(c, s) && k < |s.heap|
    ensures StateOk(c, DropSlot(s, k, held, pins)) && Kept(s, DropSlot(s, k, held, pins), pins, -1)
  {
    if held || IsCurrent(s, s.heap[k].path, k) {
    } else {
      ClearIndexOk(c, s, k, pins);
    }
  }

  lemma DropSlotKeepsTable(s: State, k: nat, held: bool, pins: Pins)
    requires k < |s.heap|
    ensures DropSlot(s, k, held, pins).slots == s.slots
  {
  }

  // The first section --------------------------------------------------------------------------------

  /** Changing the table alone. */
  lemma TableChangeOk(c: Config, s: State, slots: map<nat, nat>, pins: Pins)
    requires StateOk(c, s) && TableOk(s.(slots := slots))
    ensures StateOk(c, s.(slots := slots)) && Kept(s, s.(slots := slots), pins, -1)
  {
    var r := s.(slots := slots);
    forall k: nat ensures SlotOk(c, r, k) {
      assert SlotOk(c, s, k);
    }
    forall i: nat ensures OwnerOk(r, i) {
      assert OwnerOk(s, i);
    }
  }

  lemma EraseOk(c: Config, s: State, victim: nat, held: bool, pins: Pins)
    requires StateOk(c, s) && victim in s.slots && s.slots[victim] < |s.heap|
    ensures var r := Erase(s, victim, held, pins);
            && StateOk(c, r) && Kept(s, r, pins, -1) && r.slots == s.slots - {victim}
  {
    var erased := s.(slots := s.slots - {victim});
    assert |s.slots - {victim}| <= |s.slots| by {
      assert (s.slots - {victim}).Keys <= s.slots.Keys;
      SubsetSize((s.slots - {victim}).Keys, s.slots.Keys);
    }
    TableChangeOk(c, s, erased.slots, pins);
    DropSlotOk(c, erased, s.slots[victim], held, pins);
    DropSlotKeepsTable(erased, s.slots[victim], held, pins);
    KeptTrans(s, erased, Erase(s, victim, held, pins), pins, -1);
  }

  /** A new slot without an index for a path. */
  lemma AddSlotOk(c: Config, s: State, slot: Slot, pins: Pins)
    requires StateOk(c, s) && slot.index == None
    requires slot.path in s.slots || |s.slots| < MAX_TRACKED_SHARDS
    ensures var r := s.(slots := s.slots[slot.path := |s.heap|], heap := s.heap + [slot]);
            StateOk(c, r) && Kept(s, r, pins, -1)
  {
    var r := s.(slots := s.slots[slot.path := |s.heap|], heap := s.heap + [slot]);
    assert r.slots.Keys == s.slots.Keys + {slot.path};
    forall k: nat ensures SlotOk(c, r, k) && SlotKept(s, r, k, -1) {
      assert SlotOk(c, s, k);
    }
    forall i: nat ensures OwnerOk(r, i) {
      assert OwnerOk(s, i);
    }
  }

  lemma TouchOk(c: Config, s: State, k: nat, pins: Pins)
    requires StateOk(c, s) && k < |s.heap|
    ensures StateOk(c, Touch(s, k)) && Kept(s, Touch(s, k), pins, -1)
  {
    var slot := s.heap[k].(lastUse := s.clock + 1, visits := s.heap[k].visits + 1);
    assert SlotOk(c, s, k);
    WithSlotOk(c, s, k, slot);
    WithSlotKeeps(s, k, slot, pins, -1);
    ClockChangeOk(c, WithSlot(s, k, slot), s.clock + 1, pins);
    KeptTrans(s, WithSlot(s, k, slot), Touch(s, k), pins, -1);
  }

  lemma ClockChangeOk(c: Config, s: State, clock: nat, pins: Pins)
    requires StateOk(c, s)
    ensures StateOk(c, s.(clock := clock)) && Kept(s, s.(clock := clock), pins, -1)
  {
    forall k: nat ensures SlotOk(c, s.(clock := clock), k) {
      assert SlotOk(c, s, k);
    }
    forall i: nat ensures OwnerOk(s.(clock := clock), i) {
      assert OwnerOk(s, i);
    }
  }

  // Comparing, reserving and publishing --------------------------------------------------------------

  lemma CompareOk(c: Config, s: State, path: nat, k: nat, fingerprint: nat, thread: nat, pins: Pins)
    requires StateOk(c, s) && k < |s.heap| && s.heap[k].path == path
    ensures var (r, outcome) := Compare(s, path, k, fingerprint, thread);
            && StateOk(c, r) && Kept(s, r, pins, k) && k < |r.heap|
            && match outcome
               case Miss => Kept(s, r, pins, -1)
               case Hit(i) => i < |r.indexes| && r.indexes[i].live && r.indexes[i].published
                              && Indexes(r.indexes[i].rows, c.contents(path, fingerprint))
               case StartLoad => !s.heap[k].loading && r.heap[k].loading && r.heap[k].loader == thread
                                 && r.heap[k].fingerprint == Some(fingerprint) && r.heap[k].index == None
  {
    assert SlotOk(c, s, k);
    var (r, outcome) := Compare(s, path, k, fingerprint, thread);
    match outcome
    case Miss =>
      if r.heap != s.heap {
        AddSlotOk(c, s, Replacement(path, s.heap[k], fingerprint), pins);
      }
      KeptWeaken(s, r, pins, k);
    case Hit(_) =>
    case StartLoad =>
      var slot := s.heap[k].(fingerprint := Some(fingerprint), loading := true, loader := thread);
      WithSlotOk(c, s, k, slot);
      WithSlotKeeps(s, k, slot, pins, k);
  }

  lemma EvictOk(c: Config, s: State, path: nat, pins: Pins)
    requires StateOk(c, s) && path in s.slots && s.slots[path] < |s.heap|
    ensures StateOk(c, Evict(s, path, pins)) && Kept(s, Evict(s, path, pins), pins, -1)
  {
    var k := s.slots[path];
    var slot := s.heap[k].(skipped := true);
    assert SlotOk(c, s, k);
    WithSlotOk(c, s, k, slot);
    WithSlotKeeps(s, k, slot, pins, -1);
    ClearIndexOk(c, WithSlot(s, k, slot), k, pins);
    KeptTrans(s, WithSlot(s, k, slot), Evict(s, path, pins), pins, -1);
  }

  lemma {:induction false} EvictAllOk(c: Config, s: State, bytes: nat, paths: seq<nat>, pins: Pins)
    requires StateOk(c, s) && Evicts(s, c.limit, bytes, paths, pins)
    ensures var r := EvictAll(s, c.limit, bytes, paths, pins);
            StateOk(c, r) && Kept(s, r, pins, -1)
    decreases |paths|
  {
    if paths != [] {
      var next := Evict(s, paths[0], pins);
      EvictOk(c, s, paths[0], pins);
      EvictAllOk(c, next, bytes, paths[1..], pins);
      KeptTrans(s, next, EvictAll(s, c.limit, bytes, paths, pins), pins, -1);
    }
  }

  lemma AllocateOk(c: Config, s: State, bytes: nat, owner: nat, pins: Pins)
    requires StateOk(c, s) && owner < |s.heap| && Fits(s, c.limit, bytes)
    ensures StateOk(c, Allocate(s, bytes, owner)) && Kept(s, Allocate(s, bytes, owner), pins, -1)
  {
    var r := Allocate(s, bytes, owner);
    TotalSame(LiveBytes, s.indexes, r.indexes, |s.indexes|);
    forall k: nat ensures SlotOk(c, r, k) {
      assert SlotOk(c, s, k);
    }
    forall i: nat ensures OwnerOk(r, i) && IndexKept(s, r, i, pins, -1) {
      assert OwnerOk(s, i);
    }
  }

  /** Index i of slot `mine`, not yet published, gets other contents or becomes published. */
  lemma OwnIndexOk(c: Config, s: State, i: nat, index: Index, pins: Pins, mine: nat)
    requires StateOk(c, s) && i < |s.indexes| && s.indexes[i].owner == mine && !s.indexes[i].published
    requires index.owner == mine && index.bytes == s.indexes[i].bytes && index.live == s.indexes[i].live
    ensures StateOk(c, s.(indexes := s.indexes[i := index])) && Kept(s, s.(indexes := s.indexes[i := index]), pins, mine)
  {
    var r := s.(indexes := s.indexes[i := index]);
    TotalUpdate(LiveBytes, s.indexes, |s.indexes|, i, index);
    forall k: nat ensures SlotOk(c, r, k) {
      assert SlotOk(c, s, k);
    }
    forall j: nat ensures OwnerOk(r, j) {
      assert OwnerOk(s, j);
    }
  }

  lemma StopLoadingOk(c: Config, s: State, k: nat, pins: Pins)
    requires StateOk(c, s) && k < |s.heap| && s.heap[k].index == None
    ensures StateOk(c, StopLoading(s, k)) && Kept(s, StopLoading(s, k), pins, k)
  {
    WithSlotOk(c, s, k, s.heap[k].(loading := false));
    WithSlotKeeps(s, k, s.heap[k].(loading := false), pins, k);
  }

  lemma PublishOk(c: Config, s: State, path: nat, k: nat, same: bool, index: Option<nat>, pins: Pins)
    requires StateOk(c, s) && k < |s.heap| && s.heap[k].index == None && s.heap[k].path == path
    requires index.Some? ==>
               && index.value < |s.indexes| && s.indexes[index.value].live && !s.indexes[index.value].published
               && s.indexes[index.value].owner == k && s.heap[k].fingerprint.Some?
               && (same ==> Indexes(s.indexes[index.value].rows, c.contents(path, s.heap[k].fingerprint.value)))
    ensures var (r, done) := Publish(s, path, k, same, index);
            && StateOk(c, r) && Kept(s, r, pins, k)
            && (done ==> same && (index.Some? ==> r.indexes[index.value] == s.indexes[index.value].(published := true)))
            && (!done ==> r.indexes == s.indexes)
  {
    var (r, done) := Publish(s, path, k, same, index);
    if !done {
      StopLoadingOk(c, s, k, pins);
    } else {
      var slot := s.heap[k].(loading := false, skipped := index.None?, index := index);
      var marked := if index.None? then s else s.(indexes := s.indexes[index.value := s.indexes[index.value].(published := true)]);
      if index.Some? {
        OwnIndexOk(c, s, index.value, marked.indexes[index.value], pins, k);
      }
      WithSlotOk(c, marked, k, slot);
      WithSlotKeeps(marked, k, slot, pins, k);
      KeptTrans(s, marked, r, pins, k);
    }
  }
}
