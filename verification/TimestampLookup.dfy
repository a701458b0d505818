/** LerobotTimestampLookup: the slots and the byte budget, changed in place under one lock. `pins`
    tells which indexes other threads still refer to, `held` whether one refers to the slot given up. */
module TimestampLookup {
  import opened Collections
  import opened TimestampRows
  import Q = TimestampSlots

  ghost function IndexedPaths(s: Q.State): set<nat> {
    set path | path in s.slots && Q.HasIndex(s, path)
  }

  ghost predicate InBounds(s: Q.State) {
    forall path :: path in s.slots ==> s.slots[path] < |s.heap|
  }

  lemma EvictShrinks(s: Q.State, path: nat, pins: Q.Pins)
    requires InBounds(s) && path in s.slots && Q.HasIndex(s, path)
    ensures InBounds(Q.Evict(s, path, pins))
    ensures |IndexedPaths(Q.Evict(s, path, pins))| < |IndexedPaths(s)|
  {
    var r := Q.Evict(s, path, pins);
    assert IndexedPaths(r) <= IndexedPaths(s) - {path};
    SubsetSize(IndexedPaths(r), IndexedPaths(s) - {path});
  }

  lemma {:induction false} EvictsOneMore(s: Q.State, limit: nat, bytes: nat, paths: seq<nat>, path: nat, pins: Q.Pins)
    requires Q.Evicts(s, limit, bytes, paths, pins)
    requires var r := Q.EvictAll(s, limit, bytes, paths, pins);
             Q.IsOldestIndexed(r, path) && !Q.Fits(r, limit, bytes)
    ensures Q.Evicts(s, limit, bytes, paths + [path], pins)
    ensures Q.EvictAll(s, limit, bytes, paths + [path], pins) == Q.Evict(Q.EvictAll(s, limit, bytes, paths, pins), path, pins)
    decreases |paths|
  {
    if paths == [] {
      assert (paths + [path])[1..] == [];
    } else {
      assert (paths + [path])[1..] == paths[1..] + [path];
      EvictsOneMore(Q.Evict(s, paths[0], pins), limit, bytes, paths[1..], path, pins);
    }
  }

  class Lookup {
    const limit: nat
    var slots: map<nat, nat>
    var heap: seq<Q.Slot>
    var clock: nat
    var indexes: seq<Q.Index>
    var bytes: int
    var peak: int

    function State(): Q.State
      reads this
    {
      Q.State(slots, heap, clock, indexes, bytes, peak)
    }

    constructor (maxBytes: nat)
      ensures State() == Q.State(map[], [], 0, [], 0, 0)
      ensures limit <= maxBytes && limit <= 33554432 && (limit == maxBytes || limit == 33554432)
    {
      limit := if maxBytes < Q.MAX_INDEX_BYTES then maxBytes else Q.MAX_INDEX_BYTES;
      slots, heap, clock, indexes, bytes, peak := map[], [], 0, [], 0, 0;
    }

    /** Drop the slot's reference to its index. */
    method ResetIndex(k: nat, pins: Q.Pins)
      requires k < |heap|
      modifies this`heap, this`indexes, this`bytes
      ensures State() == Q.ClearIndex(old(State()), k, pins)
    {
      match heap[k].index
      case None =>
      case Some(i) =>
        heap := heap[k := heap[k].(index := None)];
        if i < |indexes| && !pins(i) {
          bytes := bytes - indexes[i].bytes;
          indexes := indexes[i := indexes[i].(live := false)];
        }
    }

    /** The least recently used slot with an index, if there is one. */
    method OldestIndexed() returns (oldest: Option<nat>)
      requires InBounds(State())
      ensures oldest.Some? ==> Q.IsOldestIndexed(State(), oldest.value)
      ensures oldest.None? ==> forall path :: path in slots ==> !Q.HasIndex(State(), path)
    {
      oldest := None;
      var todo := slots.Keys;
      while todo != {}
        invariant todo <= slots.Keys
        invariant oldest.Some? ==> Q.HasIndex(State(), oldest.value) && oldest.value in slots
        invariant forall path :: path in slots.Keys - todo && Q.HasIndex(State(), path) ==>
                    oldest.Some? && Q.LastUse(State(), oldest.value) <= Q.LastUse(State(), path)
        decreases |todo|
      {
        var path :| path in todo;
        var slot := heap[slots[path]];
        if slot.index.Some? && (oldest.None? || slot.lastUse < heap[slots[oldest.value]].lastUse) {
          oldest := Some(path);
        }
        todo := todo - {path};
      }
    }

    /** The least recently used slot. */
    method Oldest() returns (oldest: nat)
      requires InBounds(State()) && slots.Keys != {}
      ensures Q.IsOldest(State(), oldest)
    {
      oldest :| oldest in slots;
      var todo := slots.Keys;
      while todo != {}
        invariant todo <= slots.Keys && oldest in slots
        invariant forall path :: path in slots.Keys - todo ==> Q.LastUse(State(), oldest) <= Q.LastUse(State(), path)
        decreases |todo|
      {
        var path :| path in todo;
        if heap[slots[path]].lastUse < heap[slots[oldest]].lastUse {
          oldest := path;
        }
        todo := todo - {path};
      }
    }

    method Evict(path: nat, pins: Q.Pins)
      requires path in slots && slots[path] < |heap|
      modifies this`heap, this`indexes, this`bytes
      ensures State() == Q.Evict(old(State()), path, pins)
    {
      var k := slots[path];
      heap := heap[k := heap[k].(skipped := true)];
      ResetIndex(k, pins);
    }

    /** Reserve memory for an index of slot `owner`, evicting the least recently used indexes as far as
        needed; None when the rest is in use by other threads. */
    method Reserve(request: nat, owner: nat, pins: Q.Pins) returns (index: Option<nat>, ghost evicted: seq<nat>)
      requires InBounds(State())
      modifies this`heap, this`indexes, this`bytes, this`peak
      ensures Q.Evicts(old(State()), limit, request, evicted, pins)
      ensures var state := Q.EvictAll(old(State()), limit, request, evicted, pins);
              && (index.Some? <==> Q.Fits(state, limit, request))
              && (index.Some? ==> State() == Q.Allocate(state, request, owner) && index.value == |state.indexes|)
              && (index.None? ==> State() == state && forall path :: path in slots ==> !Q.HasIndex(State(), path))
    {
      evicted := [];
      ghost var start := State();
      while request > limit - bytes
        invariant InBounds(State()) && peak == start.peak
        invariant Q.Evicts(start, limit, request, evicted, pins)
        invariant State() == Q.EvictAll(start, limit, request, evicted, pins)
        decreases |IndexedPaths(State())|
      {
        var oldest := OldestIndexed();
        if oldest.None? {
          return None, evicted;
        }
        EvictsOneMore(start, limit, request, evicted, oldest.value, pins);
        EvictShrinks(State(), oldest.value, pins);
        Evict(oldest.value, pins);
        evicted := evicted + [oldest.value];
      }
      index := Some(|indexes|);
      indexes := indexes + [Q.Index(request, [], true, owner, false)];
      bytes := bytes + request;
      peak := if bytes > peak then bytes else peak;
    }

    /** Drop a reference to slot k. */
    method DropSlot(k: nat, held: bool, pins: Q.Pins)
      requires k < |heap|
      modifies this`heap, this`indexes, this`bytes
      ensures State() == Q.DropSlot(old(State()), k, held, pins)
    {
      if !held && !(heap[k].path in slots && slots[heap[k].path] == k) {
        ResetIndex(k, pins);
      }
    }

    /** Make room in the full table. */
    method EraseOldest(held: nat -> bool, pins: Q.Pins) returns (victim: nat)
      requires InBounds(State()) && slots.Keys != {}
      modifies this`slots, this`heap, this`indexes, this`bytes
      ensures Q.IsOldest(old(State()), victim)
      ensures State() == Q.Erase(old(State()), victim, held(old(slots)[victim]), pins)
    {
      victim := Oldest();
      var erased := slots[victim];
      slots := slots - {victim};
      DropSlot(erased, held(erased), pins);
    }

    method Touch(k: nat)
      requires k < |heap|
      modifies this`heap, this`clock
      ensures State() == Q.Touch(old(State()), k)
    {
      clock := clock + 1;
      heap := heap[k := heap[k].(lastUse := clock, visits := heap[k].visits + 1)];
    }

    /** First section of GetIndex: track the shard and decide whether it is worth an index. */
    method Visit(path: nat, warm: bool, held: nat -> bool, pins: Q.Pins)
      returns (k: nat, eligible: bool, ghost victim: nat, ghost room: Q.State)
      requires InBounds(State())
      modifies this
      ensures if path !in old(slots) && |old(slots)| == Q.MAX_TRACKED_SHARDS
              then Q.IsOldest(old(State()), victim) && room == Q.Erase(old(State()), victim, held(old(slots)[victim]), pins)
              else room == old(State())
      ensures k == Q.Tracked(room, path).1 < |Q.Tracked(room, path).0.heap|
      ensures State() == Q.Touch(Q.Tracked(room, path).0, k)
      ensures eligible == Q.Eligible(State().heap[k], warm)
    {
      victim, room := 0, State();
      if path in slots {
        k := slots[path];
      } else {
        if |slots| == Q.MAX_TRACKED_SHARDS {
          victim := EraseOldest(held, pins);
        }
        room := State();
        k := |heap|;
        heap := heap + [Q.NewSlot(path)];
        slots := slots[path := k];
      }
      Touch(k);
      eligible := heap[k].visits >= Q.INDEX_ON_VISIT && warm && !heap[k].loading;
    }

    /** Second section: reuse the index, replace the slot of a replaced file, or start loading. */
    method Compare(path: nat, k: nat, fingerprint: nat, thread: nat) returns (outcome: Q.Outcome)
      requires k < |heap|
      modifies this`slots, this`heap
      ensures (State(), outcome) == Q.Compare(old(State()), path, k, fingerprint, thread)
    {
      var slot := heap[k];
      if path !in slots || slots[path] != k || slot.loading {
        return Q.Miss;
      }
      if slot.fingerprint.Some? && slot.fingerprint.value != fingerprint {
        slots := slots[path := |heap|];
        heap := heap + [Q.Replacement(path, slot, fingerprint)];
        return Q.Miss;
      }
      if slot.index.Some? {
        return Q.Hit(slot.index.value);
      }
      if slot.skipped {
        return Q.Miss;
      }
      heap := heap[k := slot.(fingerprint := Some(fingerprint), loading := true, loader := thread)];
      outcome := Q.StartLoad;
    }

    /** Third section: the load is over. */
    method Publish(path: nat, k: nat, same: bool, index: Option<nat>) returns (published: bool)
      requires k < |heap| && (index.Some? ==> index.value < |indexes|)
      modifies this`heap, this`indexes
      ensures (State(), published) == Q.Publish(old(State()), path, k, same, index)
    {
      ghost var before := heap;
      heap := heap[k := heap[k].(loading := false)];
      if !same || path !in slots || slots[path] != k {
        return false;
      }
      heap := heap[k := heap[k].(skipped := index.None?, index := index)];
      assert heap == before[k := heap[k]];
      if index.Some? {
        indexes := indexes[index.value := indexes[index.value].(published := true)];
      }
      published := true;
    }

    /** A load that failed with an error that is passed on. */
    method StopLoading(k: nat)
      requires k < |heap|
      modifies this`heap
      ensures State() == Q.StopLoading(old(State()), k)
    {
      heap := heap[k := heap[k].(loading := false)];
    }

    /** A thread no longer refers to index i; its memory goes with the last reference. */
    method Unpin(i: nat, pins: Q.Pins)
      requires i < |indexes|
      modifies this`indexes, this`bytes
      ensures State() == Q.Unpin(old(State()), i, pins)
    {
      var owner := indexes[i].owner;
      if !pins(i) && !(owner < |heap| && heap[owner].index == Some(i)) {
        bytes := bytes - indexes[i].bytes;
        indexes := indexes[i := indexes[i].(live := false)];
      }
    }
  }
}
