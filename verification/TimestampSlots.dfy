/** The shared state of a timestamp lookup, with its locked sections as functions on it. Slots and
    indexes are shared objects, named here by their position in `heap` and `indexes`. */
module TimestampSlots {
  import opened Collections
  import opened TimestampRows

  const MAX_INDEX_BYTES: nat := 32 * 1024 * 1024
  const MAX_TRACKED_SHARDS: nat := 64
  const INDEX_ON_VISIT: nat := 3
  const ROW_BYTES: nat := 32

  /** One tracked shard. `path` and `loader` (the thread that set `loading`) are the map key and the
      thread of the source, kept with the slot. */
  datatype Slot = Slot(path: nat, fingerprint: Option<nat>, visits: nat, lastUse: nat, loading: bool, skipped: bool,
                       index: Option<nat>, loader: nat)

  /** An index with its reservation; `owner` is the slot it is loaded for, `published` once the slot
      has had it. Its memory is reserved while it is live. */
  datatype Index = Index(bytes: nat, rows: seq<IndexRow>, live: bool, owner: nat, published: bool)

  datatype State = State(
    slots: map<nat, nat>, heap: seq<Slot>, clock: nat, indexes: seq<Index>, bytes: int, peak: int)

  datatype Outcome = Miss | Hit(index: nat) | StartLoad

  /** Which indexes are referenced by threads, beside the slots. */
  type Pins = nat -> bool

  function Free(s: State, i: nat, pinned: bool): State
    requires i < |s.indexes|
  {
    if pinned then s
    else s.(indexes := s.indexes[i := s.indexes[i].(live := false)], bytes := s.bytes - s.indexes[i].bytes)
  }

  /** Slot k gives up its index. */
  function ClearIndex(s: State, k: nat, pins: Pins): State
    requires k < |s.heap|
  {
    match s.heap[k].index
    case None => s
    case Some(i) =>
      var cleared := s.(heap := s.heap[k := s.heap[k].(index := None)]);
      if i < |s.indexes| then Free(cleared, i, pins(i)) else cleared
  }

  predicate IsCurrent(s: State, path: nat, k: nat) {
    path in s.slots && s.slots[path] == k
  }

  predicate Owned(s: State, i: nat)
    requires i < |s.indexes|
  {
    s.indexes[i].owner < |s.heap| && s.heap[s.indexes[i].owner].index == Some(i)
  }

  /** A thread gives up index i; `pins` are those of the other threads. */
  function Unpin(s: State, i: nat, pins: Pins): State
    requires i < |s.indexes|
  {
    Free(s, i, pins(i) || Owned(s, i))
  }

  /** A reference to slot k is dropped; the slot goes with the last one. */
  function DropSlot(s: State, k: nat, held: bool, pins: Pins): State
    requires k < |s.heap|
  {
    if held || IsCurrent(s, s.heap[k].path, k) then s else ClearIndex(s, k, pins)
  }

  function LastUse(s: State, path: nat): nat {
    if path in s.slots && s.slots[path] < |s.heap| then s.heap[s.slots[path]].lastUse else 0
  }

  // First section of GetIndex

  ghost predicate IsOldest(s: State, path: nat) {
    path in s.slots && forall p :: p in s.slots ==> LastUse(s, path) <= LastUse(s, p)
  }

  function Erase(s: State, victim: nat, held: bool, pins: Pins): State
    requires victim in s.slots && s.slots[victim] < |s.heap|
  {
    DropSlot(s.(slots := s.slots - {victim}), s.slots[victim], held, pins)
  }

  function NewSlot(path: nat): Slot {
    Slot(path, None, 0, 0, false, false, None, 0)
  }

  /** The slot of the path, created when missing. */
  function Tracked(s: State, path: nat): (r: (State, nat)) {
    if path in s.slots then (s, s.slots[path])
    else (s.(slots := s.slots[path := |s.heap|], heap := s.heap + [NewSlot(path)]), |s.heap|)
  }

  function Touch(s: State, k: nat): State
    requires k < |s.heap|
  {
    s.(clock := s.clock + 1, heap := s.heap[k := s.heap[k].(lastUse := s.clock + 1, visits := s.heap[k].visits + 1)])
  }

  predicate Eligible(slot: Slot, warm: bool) {
    slot.visits >= INDEX_ON_VISIT && warm && !slot.loading
  }

  // Second section

  function Replacement(path: nat, slot: Slot, fingerprint: nat): Slot {
    Slot(path, Some(fingerprint), 1, slot.lastUse, false, false, None, 0)
  }

  function Compare(s: State, path: nat, k: nat, fingerprint: nat, thread: nat): (State, Outcome)
    requires k < |s.heap|
  {
    var slot := s.heap[k];
    if !IsCurrent(s, path, k) || slot.loading then (s, Miss)
    else if slot.fingerprint.Some? && slot.fingerprint.value != fingerprint then
      (s.(slots := s.slots[path := |s.heap|], heap := s.heap + [Replacement(path, slot, fingerprint)]), Miss)
    else if slot.index.Some? then (s, Hit(slot.index.value))
    else if slot.skipped then (s, Miss)
    else (s.(heap := s.heap[k := slot.(fingerprint := Some(fingerprint), loading := true, loader := thread)]), StartLoad)
  }

  // Reserve

  predicate HasIndex(s: State, path: nat) {
    path in s.slots && s.slots[path] < |s.heap| && s.heap[s.slots[path]].index.Some?
  }

  ghost predicate IsOldestIndexed(s: State, path: nat) {
    HasIndex(s, path) && forall p :: p in s.slots && HasIndex(s, p) ==> LastUse(s, path) <= LastUse(s, p)
  }

  /** Give up the index of a slot and stop building one for it. */
  function Evict(s: State, path: nat, pins: Pins): State
    requires path in s.slots && s.slots[path] < |s.heap|
  {
    var k := s.slots[path];
    ClearIndex(s.(heap := s.heap[k := s.heap[k].(skipped := true)]), k, pins)
  }

  function Fits(s: State, limit: nat, bytes: nat): bool {
    bytes <= limit - s.bytes
  }

  /** `paths` are evicted in turn: always the least recently used index, and only while the
      reservation does not fit. */
  ghost predicate Evicts(s: State, limit: nat, bytes: nat, paths: seq<nat>, pins: Pins)
    decreases |paths|
  {
    paths != [] ==>
      && IsOldestIndexed(s, paths[0]) && !Fits(s, limit, bytes)
      && Evicts(Evict(s, paths[0], pins), limit, bytes, paths[1..], pins)
  }

  ghost function EvictAll(s: State, limit: nat, bytes: nat, paths: seq<nat>, pins: Pins): State
    requires Evicts(s, limit, bytes, paths, pins)
    decreases |paths|
  {
    if paths == [] then s else EvictAll(Evict(s, paths[0], pins), limit, bytes, paths[1..], pins)
  }

  function Allocate(s: State, bytes: nat, owner: nat): State {
    var used := s.bytes + bytes;
    s.(indexes := s.indexes + [Index(bytes, [], true, owner, false)], bytes := used, peak := if used > s.peak then used else s.peak)
  }

  // End of a load

  function StoreRows(s: State, i: nat, rows: seq<IndexRow>): State
    requires i < |s.indexes|
  {
    s.(indexes := s.indexes[i := s.indexes[i].(rows := rows)])
  }

  function StopLoading(s: State, k: nat): State
    requires k < |s.heap|
  {
    s.(heap := s.heap[k := s.heap[k].(loading := false)])
  }

  /** Third section; the index is published only for an unchanged file and a slot still in place. */
  function Publish(s: State, path: nat, k: nat, same: bool, index: Option<nat>): (State, bool)
    requires k < |s.heap| && (index.Some? ==> index.value < |s.indexes|)
  {
    if !same || !IsCurrent(s, path, k) then (StopLoading(s, k), false)
    else
      var slot := s.heap[k].(loading := false, skipped := index.None?, index := index);
      var published := s.(heap := s.heap[k := slot]);
      (if index.None? then published
       else published.(indexes := s.indexes[index.value := s.indexes[index.value].(published := true)]), true)
  }
}
