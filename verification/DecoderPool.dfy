/** What the pool of open video decoders means: the idle decoders in release order and a count of
    the capacity in use, with the locked sections of LerobotDecoderCache as functions on it. */
module DecoderPool {
  /** One open decoder; ids are never reused. */
  datatype Handle = Handle(id: nat, shard: nat)

  datatype Entry = Entry(handle: Handle, releasedAt: nat)

  /** Idle decoders, least recently released first. */
  datatype Pool = Pool(idle: seq<Entry>, clock: nat, openCount: nat)

  datatype AcquireResult = Hit(handle: Handle) | Reserved | Evicted(stale: Handle) | MustWait

  // Projections kept by the implementation

  /** The shards of the idle decoders, most recently released first. */
  function Shards(idle: seq<Entry>): (r: seq<nat>)
    ensures |r| == |idle|
    ensures forall k :: 0 <= k < |r| ==> r[k] == idle[|idle| - 1 - k].handle.shard
  {
    seq(|idle|, k requires 0 <= k < |idle| => idle[|idle| - 1 - k].handle.shard)
  }

  /** The idle decoders of one shard, least recently released first. */
  function OfShard(idle: seq<Entry>, shard: nat): seq<Handle> {
    if idle == [] then []
    else
      var last := idle[|idle| - 1].handle;
      OfShard(idle[..|idle| - 1], shard) + if last.shard == shard then [last] else []
  }

  lemma {:induction false} OfShardAppends(a: seq<Entry>, b: seq<Entry>, shard: nat)
    ensures OfShard(a + b, shard) == OfShard(a, shard) + OfShard(b, shard)
  {
    if b == [] {
      assert a + b == a;
    } else {
      assert (a + b)[..|a + b| - 1] == a + b[..|b| - 1];
      OfShardAppends(a, b[..|b| - 1], shard);
    }
  }

  lemma OfShardSingle(e: Entry, shard: nat)
    ensures OfShard([e], shard) == if e.handle.shard == shard then [e.handle] else []
  {
    assert [e][..0] == [];
  }

  /** Index of the most recently released idle decoder of the shard, -1 if it has none. */
  function Newest(idle: seq<Entry>, shard: nat): (i: int)
    ensures -1 <= i < |idle|
    ensures i >= 0 ==> idle[i].handle.shard == shard
    ensures forall j :: i < j < |idle| ==> idle[j].handle.shard != shard
  {
    if idle == [] then -1
    else if idle[|idle| - 1].handle.shard == shard then |idle| - 1
    else Newest(idle[..|idle| - 1], shard)
  }

  lemma {:induction false} NoneOfShard(idle: seq<Entry>, shard: nat)
    requires forall j :: 0 <= j < |idle| ==> idle[j].handle.shard != shard
    ensures OfShard(idle, shard) == []
  {
    if idle != [] {
      NoneOfShard(idle[..|idle| - 1], shard);
    }
  }

  function Without(idle: seq<Entry>, i: nat): (r: seq<Entry>)
    requires i < |idle|
    ensures |r| == |idle| - 1
    ensures forall k :: 0 <= k < |r| ==> r[k] == idle[if k < i then k else k + 1]
  {
    idle[..i] + idle[i + 1..]
  }

  /** Taking one decoder away touches its own shard only. */
  lemma OfShardWithout(idle: seq<Entry>, i: nat, shard: nat)
    requires i < |idle|
    ensures OfShard(idle, shard) ==
            OfShard(idle[..i], shard)
            + (if idle[i].handle.shard == shard then [idle[i].handle] else [])
            + OfShard(idle[i + 1..], shard)
    ensures OfShard(Without(idle, i), shard) == OfShard(idle[..i], shard) + OfShard(idle[i + 1..], shard)
  {
    assert idle == idle[..i] + [idle[i]] + idle[i + 1..];
    OfShardAppends(idle[..i] + [idle[i]], idle[i + 1..], shard);
    OfShardAppends(idle[..i], [idle[i]], shard);
    OfShardSingle(idle[i], shard);
    OfShardAppends(idle[..i], idle[i + 1..], shard);
  }

  /** The newest decoder of a shard is at the back of the shard's deque. */
  lemma NewestIsBack(idle: seq<Entry>, shard: nat)
    ensures Newest(idle, shard) < 0 <==> OfShard(idle, shard) == []
    ensures Newest(idle, shard) >= 0 ==>
              var i := Newest(idle, shard);
              OfShard(idle, shard) == OfShard(Without(idle, i), shard) + [idle[i].handle]
  {
    var i := Newest(idle, shard);
    if i < 0 {
      NoneOfShard(idle, shard);
    } else {
      OfShardWithout(idle, i, shard);
      NoneOfShard(idle[i + 1..], shard);
    }
  }

  /** The least recently released decoder is at the front of its shard's deque. */
  lemma OldestIsFront(idle: seq<Entry>)
    requires idle != []
    ensures OfShard(idle, idle[0].handle.shard) ==
            [idle[0].handle] + OfShard(Without(idle, 0), idle[0].handle.shard)
  {
    OfShardWithout(idle, 0, idle[0].handle.shard);
  }

  // Locked sections

  /** Acquire, up to where it returns, waits or drops the lock. */
  function Acquire(p: Pool, max: nat, shard: nat): (Pool, AcquireResult) {
    var i := Newest(p.idle, shard);
    if i >= 0 then (p.(idle := Without(p.idle, i)), Hit(p.idle[i].handle))
    else if p.openCount < max then (p.(openCount := p.openCount + 1), Reserved)
    else if p.idle == [] then (p, MustWait)
    else (p.(idle := Without(p.idle, 0)), Evicted(p.idle[0].handle))
  }

  /** Opening the new decoder failed. */
  function OpenFailed(p: Pool): Pool
    requires p.openCount > 0
  {
    p.(openCount := p.openCount - 1)
  }

  function Release(p: Pool, handle: Handle): Pool {
    Pool(p.idle + [Entry(handle, p.clock)], p.clock + 1, p.openCount)
  }

  function Discard(p: Pool): Pool
    requires p.openCount > 0
  {
    p.(openCount := p.openCount - 1)
  }

  // Runs of the pool under any interleaving of its users

  /** `everOpened` are all decoders opened so far, `closed` those that were evicted or discarded. */
  datatype System = System(
    max: nat, pool: Pool, opening: multiset<nat>, leased: multiset<Handle>, closed: multiset<Handle>,
    everOpened: set<Handle>, nextId: nat)

  datatype Step =
    | AcquireStep(shard: nat)
    | OpenedStep(openedShard: nat)
    | OpenFailedStep(failedShard: nat)
    | ReleaseStep(released: Handle)
    | DiscardStep(discarded: Handle)

  ghost predicate Enabled(s: System, step: Step) {
    match step
    case AcquireStep(_) => true
    case OpenedStep(shard) => shard in s.opening
    case OpenFailedStep(shard) => shard in s.opening && s.pool.openCount > 0
    case ReleaseStep(h) => h in s.leased
    case DiscardStep(h) => h in s.leased && s.pool.openCount > 0
  }

  ghost function AfterAcquire(s: System, shard: nat): System {
    var (pool, result) := Acquire(s.pool, s.max, shard);
    var next := s.(pool := pool);
    match result
    case Hit(h) => next.(leased := s.leased + multiset{h})
    case Reserved => next.(opening := s.opening + multiset{shard})
    case Evicted(stale) => next.(opening := s.opening + multiset{shard}, closed := s.closed + multiset{stale})
    case MustWait => next
  }

  ghost function Next(s: System, step: Step): System
    requires Enabled(s, step)
  {
    match step
    case AcquireStep(shard) => AfterAcquire(s, shard)
    case OpenedStep(shard) =>
      s.(opening := s.opening - multiset{shard}, leased := s.leased + multiset{Handle(s.nextId, shard)},
         everOpened := s.everOpened + {Handle(s.nextId, shard)}, nextId := s.nextId + 1)
    case OpenFailedStep(shard) => s.(opening := s.opening - multiset{shard}, pool := OpenFailed(s.pool))
    case ReleaseStep(h) => s.(leased := s.leased - multiset{h}, pool := Release(s.pool, h))
    case DiscardStep(h) =>
      s.(leased := s.leased - multiset{h}, closed := s.closed + multiset{h}, pool := Discard(s.pool))
  }

  ghost predicate IsRun(s: seq<System>, steps: seq<Step>) {
    && |s| == |steps| + 1
    && forall k :: 0 <= k < |steps| ==> Enabled(s[k], steps[k]) && s[k + 1] == Next(s[k], steps[k])
  }

  // The invariant

  function Handles(idle: seq<Entry>): (r: seq<Handle>)
    ensures |r| == |idle| && forall k :: 0 <= k < |r| ==> r[k] == idle[k].handle
  {
    seq(|idle|, k requires 0 <= k < |idle| => idle[k].handle)
  }

  function IdleCount(idle: seq<Entry>, h: Handle): nat {
    multiset(Handles(idle))[h]
  }

  /** Every decoder opened so far is in exactly one place: idle, leased, or evicted or discarded. */
  ghost predicate AccountedFor(s: System, h: Handle) {
    Places(s, h) == (if h in s.everOpened then 1 else 0) && (h in s.everOpened ==> h.id < s.nextId)
  }

  ghost predicate InReleaseOrder(p: Pool) {
    && (forall i, j :: 0 <= i < j < |p.idle| ==> p.idle[i].releasedAt < p.idle[j].releasedAt)
    && (forall i :: 0 <= i < |p.idle| ==> p.idle[i].releasedAt < p.clock)
  }

  ghost predicate Counted(s: System) {
    s.pool.openCount == |s.pool.idle| + |s.leased| + |s.opening| <= s.max
  }

  ghost predicate Inv(s: System) {
    Counted(s) && InReleaseOrder(s.pool) && forall h :: AccountedFor(s, h)
  }

  ghost predicate Start(s: System) {
    s == System(s.max, Pool([], 0, 0), multiset{}, multiset{}, multiset{}, {}, 0)
  }

  lemma IdleCountWithout(idle: seq<Entry>, i: nat, h: Handle)
    requires i < |idle|
    ensures IdleCount(idle, h) == IdleCount(Without(idle, i), h) + if h == idle[i].handle then 1 else 0
  {
    var handles := Handles(idle);
    assert handles == handles[..i] + [handles[i]] + handles[i + 1..];
    assert Handles(Without(idle, i)) == handles[..i] + handles[i + 1..];
  }

  lemma IdleCountReleased(idle: seq<Entry>, e: Entry, h: Handle)
    ensures IdleCount(idle + [e], h) == IdleCount(idle, h) + if h == e.handle then 1 else 0
  {
    assert Handles(idle + [e]) == Handles(idle) + [e.handle];
  }

  /** How often a decoder occurs in the whole system. */
  ghost function Places(s: System, h: Handle): nat {
    IdleCount(s.pool.idle, h) + s.leased[h] + s.closed[h]
  }

  lemma OrderWithout(p: Pool, i: nat)
    requires InReleaseOrder(p) && i < |p.idle|
    ensures InReleaseOrder(p.(idle := Without(p.idle, i)))
  {
  }

  lemma AcquireKeepsOrder(p: Pool, max: nat, shard: nat)
    requires InReleaseOrder(p)
    ensures InReleaseOrder(Acquire(p, max, shard).0)
  {
    var i := Newest(p.idle, shard);
    if i >= 0 {
      OrderWithout(p, i);
    } else if p.openCount >= max && p.idle != [] {
      OrderWithout(p, 0);
    }
  }

  lemma AcquireMoves(s: System, shard: nat, h: Handle)
    ensures Places(AfterAcquire(s, shard), h) == Places(s, h)
  {
    var i := Newest(s.pool.idle, shard);
    if i >= 0 {
      IdleCountWithout(s.pool.idle, i, h);
    } else if s.pool.openCount >= s.max && s.pool.idle != [] {
      IdleCountWithout(s.pool.idle, 0, h);
    }
  }

  lemma AcquireKeepsCount(s: System, shard: nat)
    requires Counted(s)
    ensures Counted(AfterAcquire(s, shard))
  {
  }

  lemma AcquireKeepsInv(s: System, shard: nat)
    requires Inv(s)
    ensures Inv(AfterAcquire(s, shard))
  {
    var next := AfterAcquire(s, shard);
    AcquireKeepsCount(s, shard);
    AcquireKeepsOrder(s.pool, s.max, shard);
    forall h ensures AccountedFor(next, h) {
      assert AccountedFor(s, h);
      AcquireMoves(s, shard, h);
    }
  }

  lemma ReleaseKeepsInv(s: System, released: Handle)
    requires Inv(s) && Enabled(s, ReleaseStep(released))
    ensures Inv(Next(s, ReleaseStep(released)))
  {
    forall h ensures AccountedFor(Next(s, ReleaseStep(released)), h) {
      IdleCountReleased(s.pool.idle, Entry(released, s.pool.clock), h);
      assert AccountedFor(s, h);
    }
  }

  lemma OpenedKeepsInv(s: System, shard: nat)
    requires Inv(s) && Enabled(s, OpenedStep(shard))
    ensures Inv(Next(s, OpenedStep(shard)))
  {
    forall h ensures AccountedFor(Next(s, OpenedStep(shard)), h) {
      assert AccountedFor(s, h);
    }
  }

  lemma DiscardKeepsInv(s: System, discarded: Handle)
    requires Inv(s) && Enabled(s, DiscardStep(discarded))
    ensures Inv(Next(s, DiscardStep(discarded)))
  {
    forall h ensures AccountedFor(Next(s, DiscardStep(discarded)), h) {
      assert AccountedFor(s, h);
    }
  }

  lemma StepKeepsInv(s: System, step: Step)
    requires Inv(s) && Enabled(s, step)
    ensures Inv(Next(s, step))
  {
    match step
    case AcquireStep(shard) => AcquireKeepsInv(s, shard);
    case OpenedStep(shard) => OpenedKeepsInv(s, shard);
    case OpenFailedStep(shard) =>
      forall h ensures AccountedFor(Next(s, step), h) {
        assert AccountedFor(s, h);
      }
    case ReleaseStep(h) => ReleaseKeepsInv(s, h);
    case DiscardStep(h) => DiscardKeepsInv(s, h);
  }

  lemma {:induction false} RunKeepsInv(states: seq<System>, steps: seq<Step>, k: nat)
    requires IsRun(states, steps) && Start(states[0]) && k <= |steps|
    ensures Inv(states[k]) && states[k].max == states[0].max
  {
    if k > 0 {
      RunKeepsInv(states, steps, k - 1);
      StepKeepsInv(states[k - 1], steps[k - 1]);
    }
  }

  // What every run guarantees

  /** Acquire hands out an idle decoder of the shard if there is one, the newest; it evicts only the
      least recently released decoder of all, and only at full capacity; it waits only when all of
      the capacity is in the hands of other users. */
  lemma AcquireIsFair(s: System, shard: nat)
    requires Inv(s)
    ensures match Acquire(s.pool, s.max, shard).1
            case Hit(h) =>
              && h.shard == shard && h !in s.leased
              && exists i :: 0 <= i < |s.pool.idle| && s.pool.idle[i].handle == h && NewestOfItsShard(s.pool, i)
            case Reserved => NoneIdle(s.pool, shard) && s.pool.openCount < s.max
            case Evicted(h) =>
              && NoneIdle(s.pool, shard) && s.pool.openCount == s.max
              && exists i :: 0 <= i < |s.pool.idle| && s.pool.idle[i].handle == h && OldestOfAll(s.pool, i)
            case MustWait => s.pool.idle == [] && |s.leased| + |s.opening| == s.max
  {
    var i := Newest(s.pool.idle, shard);
    if i >= 0 {
      var h := s.pool.idle[i].handle;
      assert AccountedFor(s, h);
      IdleCountWithout(s.pool.idle, i, h);
      assert NewestOfItsShard(s.pool, i);
    } else if s.pool.openCount == s.max && s.pool.idle != [] {
      assert OldestOfAll(s.pool, 0);
    }
  }

  ghost predicate NoneIdle(p: Pool, shard: nat) {
    forall j :: 0 <= j < |p.idle| ==> p.idle[j].handle.shard != shard
  }

  ghost predicate NewestOfItsShard(p: Pool, i: nat)
    requires i < |p.idle|
  {
    forall j :: 0 <= j < |p.idle| && p.idle[j].handle.shard == p.idle[i].handle.shard ==>
      p.idle[j].releasedAt <= p.idle[i].releasedAt
  }

  ghost predicate OldestOfAll(p: Pool, i: nat)
    requires i < |p.idle|
  {
    forall j :: 0 <= j < |p.idle| ==> p.idle[i].releasedAt <= p.idle[j].releasedAt
  }

  /** A waiter is never stuck behind idle capacity: someone holds a decoder or is opening one. */
  lemma WaitersHaveSomeoneToWaitFor(s: System, shard: nat)
    requires Inv(s) && s.max > 0 && Acquire(s.pool, s.max, shard).1 == MustWait
    ensures s.leased != multiset{} || s.opening != multiset{}
  {
    AcquireIsFair(s, shard);
  }

  /** Once a leased decoder has come back or failed to open, the waiter is served. */
  lemma WaitersAreServed(s: System, shard: nat, step: Step)
    requires Inv(s) && s.max > 0 && Enabled(s, step)
    requires step.OpenFailedStep? || step.ReleaseStep? || step.DiscardStep?
    ensures Acquire(Next(s, step).pool, s.max, shard).1 != MustWait
  {
    StepKeepsInv(s, step);
  }
}
