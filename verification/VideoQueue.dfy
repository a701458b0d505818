/** The target queue shared by producer tasks and scan threads (LerobotVideoProducerState).

    `Queue` is the state guarded by the mutex and each function below is one locked section; class
    `ProducerState` performs the same sections in place. A producer is named by its index. */
module VideoQueue {
  import opened Collections
  import opened VideoBuffers

  /** `shardOf` maps a route index to its video file; `queries[q]` lists, row by row, the targets
      that the rows of frame query q resolve to; `finalize` sorts and clusters a full buffer. */
  datatype Config = Config(
    shardOf: nat -> nat,
    queries: seq<seq<seq<Target>>>,
    targetBufferSize: nat,
    maxPendingTargets: nat,
    finalize: DecodeBuffer -> DecodeBuffer)
  {
    function Shard(target: Target): nat {
      shardOf(target.routeIndex)
    }

    /** Option binding rejects zero sizes; finalizing only reorders the targets. */
    ghost predicate Valid() {
      targetBufferSize > 0 && maxPendingTargets > 0 && FinalizeReorders()
    }

    ghost predicate FinalizeReorders() {
      forall b {:trigger finalize(b)} ::
        && finalize(b).shardIndex == b.shardIndex
        && |finalize(b).targets| == |b.targets|
        && multiset(finalize(b).targets) == multiset(b.targets)
    }
  }

  datatype Buffers = Buffers(
    partialBuffers: map<nat, seq<Target>>,
    partialLru: seq<nat>,
    readyBuffers: seq<DecodeBuffer>,
    pendingTargetCount: int)
  {
    function Partial(shard: nat): seq<Target> {
      if shard in partialBuffers then partialBuffers[shard] else []
    }
  }

  datatype Queue = Queue(
    buffers: Buffers,
    activeProducers: nat,
    sourceExhausted: bool,
    stopRequested: bool,
    error: Option<nat>,
    busyShards: set<nat>,
    blockedProducers: seq<nat>)

  datatype QueueResult = Queued | QueueBlocked | Stopped
  datatype ClaimResult = Claimed(buffer: DecodeBuffer) | ClaimBlocked | Finished | Failed(error: nat)

  function Min(a: nat, b: nat): nat {
    if a < b then a else b
  }

  const EMPTY := Buffers(map[], [], [], 0)

  function InitialQueue(c: Config, producerThreads: nat): Queue {
    var producers := Min(producerThreads, |c.queries|);
    Queue(EMPTY, producers, producers == 0, false, None, {}, [])
  }

  // Sections that move targets between buffers -----------------------------------------------------

  function Without(s: seq<nat>, x: nat): seq<nat> {
    if s == [] then []
    else if s[0] == x then Without(s[1..], x)
    else [s[0]] + Without(s[1..], x)
  }

  function FlushPartialBuffer(c: Config, b: Buffers, shard: nat): Buffers {
    if b.Partial(shard) == [] then b
    else
      b.(partialBuffers := b.partialBuffers - {shard},
         partialLru := Without(b.partialLru, shard),
         readyBuffers := b.readyBuffers + [c.finalize(DecodeBuffer(shard, b.Partial(shard), []))])
  }

  function FlushOldestPartialBuffer(c: Config, b: Buffers): Buffers {
    if b.partialLru == [] then b else FlushPartialBuffer(c, b, b.partialLru[|b.partialLru| - 1])
  }

  /** The partial buffers leave in some order, given by `order`. */
  function FlushInOrder(c: Config, b: Buffers, order: seq<nat>): Buffers {
    if order == [] then b
    else
      var last := |order| - 1;
      FlushPartialBuffer(c, FlushInOrder(c, b, order[..last]), order[last])
  }

  function AddTarget(c: Config, b: Buffers, target: Target): Buffers {
    var shard := c.Shard(target);
    b.(partialBuffers := b.partialBuffers[shard := b.Partial(shard) + [target]],
       partialLru := [shard] + Without(b.partialLru, shard),
       pendingTargetCount := b.pendingTargetCount + 1)
  }

  function QueueTarget(c: Config, b: Buffers, target: Target): Buffers {
    var added := AddTarget(c, b, target);
    if |added.Partial(c.Shard(target))| >= c.targetBufferSize then FlushPartialBuffer(c, added, c.Shard(target))
    else added
  }

  /** Queue targets[from..to] one after the other. */
  function QueueAll(c: Config, b: Buffers, targets: seq<Target>, from: nat, to: nat): Buffers
    requires from <= to <= |targets|
  {
    if from == to then b else QueueTarget(c, QueueAll(c, b, targets, from, to - 1), targets[to - 1])
  }

  /** How many more targets fit under the pending bound. */
  function Room(c: Config, b: Buffers): nat {
    if b.pendingTargetCount < c.maxPendingTargets then c.maxPendingTargets - b.pendingTargetCount else 0
  }

  // Locked sections ------------------------------------------------------------------------------

  function QueueEnd(c: Config, q: Queue, targets: seq<Target>, position: nat): (end: nat)
    requires position <= |targets|
    ensures position <= end <= |targets|
  {
    position + Min(|targets| - position, Room(c, q.buffers))
  }

  /** A producer left with targets publishes the oldest partial buffer, so that a consumer can make
      room, and goes to sleep. */
  function BlockProducer(c: Config, q: Queue, producer: nat): Queue {
    q.(buffers := FlushOldestPartialBuffer(c, q.buffers), blockedProducers := q.blockedProducers + [producer])
  }

  /** Queue as many targets from `position` on as the bound allows, and block if some are left. */
  function QueueTargets(c: Config, q: Queue, targets: seq<Target>, position: nat, producer: nat)
    : (r: (Queue, nat, QueueResult))
    requires position <= |targets|
    ensures position <= r.1 <= |targets|
  {
    if q.stopRequested then (q, position, Stopped)
    else
      var end := QueueEnd(c, q, targets, position);
      var queued := q.(buffers := QueueAll(c, q.buffers, targets, position, end));
      if end == |targets| then (queued, end, Queued) else (BlockProducer(c, queued, producer), end, QueueBlocked)
  }

  function ProducerFinished(c: Config, q: Queue, abandoned: bool, order: seq<nat>): Queue
    requires q.activeProducers > 0
  {
    var stopped := q.stopRequested || abandoned;
    var last := q.activeProducers == 1;
    q.(buffers := if stopped then EMPTY else if last then FlushInOrder(c, q.buffers, order) else q.buffers,
       stopRequested := stopped,
       activeProducers := q.activeProducers - 1,
       sourceExhausted := q.sourceExhausted || last)
  }

  /** Position of the first ready buffer whose shard is free, or the queue length. */
  function FirstClaimable(ready: seq<DecodeBuffer>, busy: set<nat>): (i: nat)
    ensures i <= |ready|
    ensures i < |ready| ==> ready[i].shardIndex !in busy
    ensures forall k :: 0 <= k < i ==> ready[k].shardIndex in busy
  {
    if ready == [] || ready[0].shardIndex !in busy then 0 else 1 + FirstClaimable(ready[1..], busy)
  }

  function TakeReady(b: Buffers, i: nat): Buffers
    requires i < |b.readyBuffers|
  {
    b.(readyBuffers := b.readyBuffers[..i] + b.readyBuffers[i + 1..],
       pendingTargetCount := b.pendingTargetCount - |b.readyBuffers[i].targets|)
  }

  /** Hand out the first buffer of a free shard; its claim wakes every blocked producer. */
  function ClaimBuffer(q: Queue): (Queue, ClaimResult) {
    var i := FirstClaimable(q.buffers.readyBuffers, q.busyShards);
    if q.error.Some? then (q, Failed(q.error.value))
    else if i < |q.buffers.readyBuffers| then
      var buffer := q.buffers.readyBuffers[i];
      (q.(buffers := TakeReady(q.buffers, i), busyShards := q.busyShards + {buffer.shardIndex}, blockedProducers := []),
       Claimed(buffer))
    else if q.sourceExhausted || q.stopRequested then (q, Finished)
    else (q, ClaimBlocked)
  }

  function FinishBuffer(q: Queue, shard: nat): Queue {
    q.(busyShards := q.busyShards - {shard})
  }

  function RequestStop(q: Queue): Queue {
    q.(stopRequested := true, blockedProducers := [])
  }

  /** An error that a producer ran into; only the first one is kept. */
  function Fail(q: Queue, error: nat): Queue {
    q.(error := if q.error.Some? then q.error else Some(error), stopRequested := true, blockedProducers := [])
  }

  // Invariant of the buffers ---------------------------------------------------------------------

  ghost predicate Distinct(s: seq<nat>) {
    forall i, j :: 0 <= i < j < |s| ==> s[i] != s[j]
  }

  function PartialSizes(partials: map<nat, seq<Target>>, shards: seq<nat>): nat {
    if shards == [] then 0
    else (if shards[0] in partials then |partials[shards[0]]| else 0) + PartialSizes(partials, shards[1..])
  }

  function ReadySizes(ready: seq<DecodeBuffer>): nat {
    if ready == [] then 0 else |ready[0].targets| + ReadySizes(ready[1..])
  }

  /** The LRU list enumerates exactly the partial buffers. */
  ghost predicate LruMatches(b: Buffers) {
    && Distinct(b.partialLru)
    && (forall s :: s in b.partialLru <==> s in b.partialBuffers)
  }

  ghost predicate PartialOfShard(c: Config, b: Buffers, shard: nat)
    requires shard in b.partialBuffers
  {
    && 0 < |b.partialBuffers[shard]|
    && forall t :: t in b.partialBuffers[shard] ==> c.Shard(t) == shard
  }

  ghost predicate BufferOfShard(c: Config, buffer: DecodeBuffer) {
    && 0 < |buffer.targets|
    && forall t :: t in buffer.targets ==> c.Shard(t) == buffer.shardIndex
  }

  /** Partial and ready buffers are non-empty and hold targets of their own shard only. */
  ghost predicate Sharded(c: Config, b: Buffers) {
    && (forall s :: s in b.partialBuffers ==> PartialOfShard(c, b, s))
    && (forall r :: r in b.readyBuffers ==> BufferOfShard(c, r))
  }

  ghost predicate Counted(b: Buffers) {
    b.pendingTargetCount == PartialSizes(b.partialBuffers, b.partialLru) + ReadySizes(b.readyBuffers)
  }

  ghost predicate BuffersInv(c: Config, b: Buffers) {
    LruMatches(b) && Sharded(c, b) && Counted(b)
  }

  /** A property of the buffers that adding a target and flushing a shard both keep. */
  ghost predicate Kept(c: Config, inv: Buffers -> bool) {
    && (forall b, t :: inv(b) ==> inv(AddTarget(c, b, t)))
    && (forall b, s :: inv(b) ==> inv(FlushPartialBuffer(c, b, s)))
  }

  lemma {:induction false} QueueAllKeeps(c: Config, inv: Buffers -> bool, b: Buffers, targets: seq<Target>, from: nat, to: nat)
    requires from <= to <= |targets|
    requires Kept(c, inv) && inv(b)
    ensures inv(QueueAll(c, b, targets, from, to))
  {
    if from < to {
      QueueAllKeeps(c, inv, b, targets, from, to - 1);
    }
  }

  lemma {:induction false} FlushInOrderKeeps(c: Config, inv: Buffers -> bool, b: Buffers, order: seq<nat>)
    requires Kept(c, inv) && inv(b)
    ensures inv(FlushInOrder(c, b, order))
  {
    if order != [] {
      FlushInOrderKeeps(c, inv, b, order[..|order| - 1]);
    }
  }

  lemma {:induction false} WithoutContains(s: seq<nat>, x: nat, y: nat)
    ensures y in Without(s, x) <==> y in s && y != x
  {
    if s != [] {
      WithoutContains(s[1..], x, y);
    }
  }

  lemma WithoutContainsOthers(s: seq<nat>, x: nat)
    ensures forall y :: y in Without(s, x) <==> y in s && y != x
  {
    forall y: nat
      ensures y in Without(s, x) <==> y in s && y != x
    {
      WithoutContains(s, x, y);
    }
  }

  lemma {:induction false} WithoutKeepsDistinct(s: seq<nat>, x: nat)
    requires Distinct(s)
    ensures Distinct(Without(s, x))
  {
    if s != [] {
      WithoutKeepsDistinct(s[1..], x);
      WithoutContains(s[1..], x, s[0]);
      assert s[0] !in s[1..];
    }
  }

  lemma {:induction false} SizesWithout(partials: map<nat, seq<Target>>, shards: seq<nat>, x: nat)
    requires Distinct(shards)
    ensures PartialSizes(partials, Without(shards, x))
         == PartialSizes(partials, shards) - (if x in shards && x in partials then |partials[x]| else 0)
  {
    if shards != [] {
      SizesWithout(partials, shards[1..], x);
      if shards[0] != x {
        assert ([shards[0]] + Without(shards[1..], x))[1..] == Without(shards[1..], x);
      } else {
        assert x !in shards[1..];
      }
    }
  }

  lemma {:induction false} SizesAgree(a: map<nat, seq<Target>>, b: map<nat, seq<Target>>, shards: seq<nat>)
    requires forall s :: s in shards ==> (s in a <==> s in b) && (s in a ==> a[s] == b[s])
    ensures PartialSizes(a, shards) == PartialSizes(b, shards)
  {
    if shards != [] {
      SizesAgree(a, b, shards[1..]);
    }
  }

  lemma {:induction false} ReadySizesAppend(ready: seq<DecodeBuffer>, more: seq<DecodeBuffer>)
    ensures ReadySizes(ready + more) == ReadySizes(ready) + ReadySizes(more)
  {
    if ready == [] {
      assert ready + more == more;
    } else {
      assert (ready + more)[1..] == ready[1..] + more;
      ReadySizesAppend(ready[1..], more);
    }
  }

  /** Removing one shard from the partial buffers takes exactly its targets off the count. */
  lemma SizesAfterRemoval(partials: map<nat, seq<Target>>, lru: seq<nat>, shard: nat)
    requires Distinct(lru) && shard in lru && shard in partials
    ensures PartialSizes(partials - {shard}, Without(lru, shard)) == PartialSizes(partials, lru) - |partials[shard]|
  {
    SizesWithout(partials, lru, shard);
    WithoutContainsOthers(lru, shard);
    SizesAgree(partials, partials - {shard}, Without(lru, shard));
  }

  /** Putting a shard first with new contents replaces its old contribution. */
  lemma SizesAfterTouch(partials: map<nat, seq<Target>>, lru: seq<nat>, shard: nat, contents: seq<Target>)
    requires Distinct(lru) && (shard in lru <==> shard in partials)
    ensures PartialSizes(partials[shard := contents], [shard] + Without(lru, shard))
         == PartialSizes(partials, lru) - (if shard in partials then |partials[shard]| else 0) + |contents|
  {
    SizesWithout(partials, lru, shard);
    WithoutContainsOthers(lru, shard);
    SizesAgree(partials, partials[shard := contents], Without(lru, shard));
    assert ([shard] + Without(lru, shard))[1..] == Without(lru, shard);
  }

  lemma FlushKeepsLru(c: Config, b: Buffers, shard: nat)
    requires LruMatches(b)
    ensures LruMatches(FlushPartialBuffer(c, b, shard))
  {
    WithoutKeepsDistinct(b.partialLru, shard);
    WithoutContainsOthers(b.partialLru, shard);
  }

  lemma FinalizedKeepsShard(c: Config, buffer: DecodeBuffer)
    requires c.FinalizeReorders() && BufferOfShard(c, buffer)
    ensures BufferOfShard(c, c.finalize(buffer))
  {
    var r := c.finalize(buffer);
    forall t | t in r.targets
      ensures c.Shard(t) == r.shardIndex
    {
      assert t in multiset(r.targets);
    }
  }

  lemma FlushKeepsSharded(c: Config, b: Buffers, shard: nat)
    requires c.FinalizeReorders() && Sharded(c, b)
    ensures Sharded(c, FlushPartialBuffer(c, b, shard))
  {
    var r := FlushPartialBuffer(c, b, shard);
    if shard in b.partialBuffers {
      assert PartialOfShard(c, b, shard);
      FinalizedKeepsShard(c, DecodeBuffer(shard, b.partialBuffers[shard], []));
    }
    forall s | s in r.partialBuffers
      ensures PartialOfShard(c, r, s)
    {
      assert PartialOfShard(c, b, s);
    }
  }

  lemma FlushKeepsCount(c: Config, b: Buffers, shard: nat)
    requires c.FinalizeReorders() && LruMatches(b) && Counted(b)
    ensures Counted(FlushPartialBuffer(c, b, shard))
  {
    if b.Partial(shard) != [] {
      var flushed := c.finalize(DecodeBuffer(shard, b.Partial(shard), []));
      SizesAfterRemoval(b.partialBuffers, b.partialLru, shard);
      ReadySizesAppend(b.readyBuffers, [flushed]);
    }
  }

  lemma AddKeepsLru(c: Config, b: Buffers, target: Target)
    requires LruMatches(b)
    ensures LruMatches(AddTarget(c, b, target))
  {
    WithoutKeepsDistinct(b.partialLru, c.Shard(target));
    WithoutContainsOthers(b.partialLru, c.Shard(target));
  }

  lemma AddKeepsSharded(c: Config, b: Buffers, target: Target)
    requires Sharded(c, b)
    ensures Sharded(c, AddTarget(c, b, target))
  {
    var r, shard := AddTarget(c, b, target), c.Shard(target);
    forall s | s in r.partialBuffers
      ensures PartialOfShard(c, r, s)
    {
      if s in b.partialBuffers {
        assert PartialOfShard(c, b, s);
      }
    }
  }

  lemma AddKeepsCount(c: Config, b: Buffers, target: Target)
    requires LruMatches(b) && Counted(b)
    ensures Counted(AddTarget(c, b, target))
  {
    var shard := c.Shard(target);
    SizesAfterTouch(b.partialBuffers, b.partialLru, shard, b.Partial(shard) + [target]);
  }

  lemma BuffersInvIsKept(c: Config, inv: Buffers -> bool)
    requires c.FinalizeReorders() && forall b :: inv(b) <==> BuffersInv(c, b)
    ensures Kept(c, inv)
  {
    forall b, t | inv(b)
      ensures inv(AddTarget(c, b, t))
    {
      AddKeepsLru(c, b, t);
      AddKeepsSharded(c, b, t);
      AddKeepsCount(c, b, t);
    }
    forall b, s | inv(b)
      ensures inv(FlushPartialBuffer(c, b, s))
    {
      FlushKeepsLru(c, b, s);
      FlushKeepsSharded(c, b, s);
      FlushKeepsCount(c, b, s);
    }
  }

  ghost function InvOf(c: Config): Buffers -> bool {
    b => BuffersInv(c, b)
  }

  lemma QueueAllKeepsInv(c: Config, b: Buffers, targets: seq<Target>, from: nat, to: nat)
    requires from <= to <= |targets|
    requires c.FinalizeReorders() && BuffersInv(c, b)
    ensures BuffersInv(c, QueueAll(c, b, targets, from, to))
  {
    BuffersInvIsKept(c, InvOf(c));
    QueueAllKeeps(c, InvOf(c), b, targets, from, to);
  }

  lemma QueueAllKeepsLru(c: Config, b: Buffers, targets: seq<Target>, from: nat, to: nat)
    requires from <= to <= |targets|
    requires c.FinalizeReorders() && BuffersInv(c, b)
    ensures LruMatches(QueueAll(c, b, targets, from, to))
  {
    QueueAllKeepsInv(c, b, targets, from, to);
  }

  lemma EmptyTogether(b: Buffers)
    requires LruMatches(b)
    ensures b.partialBuffers == map[] <==> b.partialLru == []
  {
    assert b.partialLru != [] ==> b.partialLru[0] in b.partialBuffers;
    assert b.partialBuffers == map[] || exists s :: s in b.partialBuffers.Keys;
  }

  lemma FlushInOrderKeepsInv(c: Config, b: Buffers, order: seq<nat>)
    requires c.FinalizeReorders() && BuffersInv(c, b)
    ensures BuffersInv(c, FlushInOrder(c, b, order))
  {
    BuffersInvIsKept(c, InvOf(c));
    FlushInOrderKeeps(c, InvOf(c), b, order);
  }

  lemma FlushKeepsInv(c: Config, b: Buffers, shard: nat)
    requires c.FinalizeReorders() && BuffersInv(c, b)
    ensures BuffersInv(c, FlushPartialBuffer(c, b, shard))
  {
    BuffersInvIsKept(c, InvOf(c));
    assert InvOf(c)(b);
  }

  lemma TakeReadyKeepsInv(c: Config, b: Buffers, i: nat)
    requires BuffersInv(c, b) && i < |b.readyBuffers|
    ensures BuffersInv(c, TakeReady(b, i)) && BufferOfShard(c, b.readyBuffers[i])
    ensures TakeReady(b, i).pendingTargetCount < b.pendingTargetCount
  {
    var ready := b.readyBuffers;
    assert ready == ready[..i] + ([ready[i]] + ready[i + 1..]);
    ReadySizesAppend(ready[..i], [ready[i]] + ready[i + 1..]);
    ReadySizesAppend([ready[i]], ready[i + 1..]);
    ReadySizesAppend(ready[..i], ready[i + 1..]);
    forall s | s in b.partialBuffers
      ensures PartialOfShard(c, TakeReady(b, i), s)
    {
      assert PartialOfShard(c, b, s);
    }
  }

  lemma QueueTargetCounts(c: Config, b: Buffers, target: Target)
    ensures QueueTarget(c, b, target).pendingTargetCount == b.pendingTargetCount + 1
  {
  }

  lemma {:induction false} QueueAllCounts(c: Config, b: Buffers, targets: seq<Target>, from: nat, to: nat)
    requires from <= to <= |targets|
    ensures QueueAll(c, b, targets, from, to).pendingTargetCount == b.pendingTargetCount + (to - from)
  {
    if from < to {
      QueueAllCounts(c, b, targets, from, to - 1);
      QueueTargetCounts(c, QueueAll(c, b, targets, from, to - 1), targets[to - 1]);
    }
  }

  /** What every locked section keeps: consistent buffers, the pending bound, and something to claim
      whenever a producer is blocked. */
  ghost predicate QueueInv(c: Config, q: Queue) {
    && BuffersInv(c, q.buffers)
    && q.buffers.pendingTargetCount <= c.maxPendingTargets
    && (!q.stopRequested && q.blockedProducers != [] ==> q.buffers.readyBuffers != [])
    && (q.error.Some? ==> q.stopRequested)
    && (!q.stopRequested && q.activeProducers == 0 ==> q.buffers.partialBuffers == map[])
  }

  /** A positive count without partial buffers is made of ready buffers. */
  lemma SomethingReady(b: Buffers)
    requires LruMatches(b) && Counted(b) && b.pendingTargetCount > 0 && b.partialLru == []
    ensures b.readyBuffers != []
  {
  }

  lemma FlushOldestPublishes(c: Config, b: Buffers)
    requires c.FinalizeReorders() && BuffersInv(c, b) && b.pendingTargetCount > 0
    ensures var r := FlushOldestPartialBuffer(c, b);
            BuffersInv(c, r) && r.readyBuffers != [] && r.pendingTargetCount == b.pendingTargetCount
  {
    if b.partialLru == [] {
      SomethingReady(b);
    } else {
      var oldest := b.partialLru[|b.partialLru| - 1];
      FlushKeepsInv(c, b, oldest);
      assert oldest in b.partialBuffers;
      assert PartialOfShard(c, b, oldest);
    }
  }

  /** Queueing keeps the bound, the count and the LRU; a producer that blocks leaves a ready buffer. */
  lemma QueueTargetsKeepsInv(c: Config, q: Queue, targets: seq<Target>, position: nat, producer: nat)
    requires c.Valid() && QueueInv(c, q) && position <= |targets| && q.activeProducers > 0
    ensures QueueInv(c, QueueTargets(c, q, targets, position, producer).0)
  {
    if !q.stopRequested {
      var end := QueueEnd(c, q, targets, position);
      var queued := QueueAll(c, q.buffers, targets, position, end);
      QueueAllKeepsInv(c, q.buffers, targets, position, end);
      QueueAllCounts(c, q.buffers, targets, position, end);
      if end < |targets| {
        FlushOldestPublishes(c, queued);
      }
      ReadyStaysReady(c, q.buffers, targets, position, end);
    }
  }

  lemma ReadyStaysReady(c: Config, b: Buffers, targets: seq<Target>, from: nat, to: nat)
    requires from <= to <= |targets|
    ensures b.readyBuffers != [] ==> QueueAll(c, b, targets, from, to).readyBuffers != []
  {
    var inv := (r: Buffers) => b.readyBuffers != [] ==> r.readyBuffers != [];
    QueueAllKeeps(c, inv, b, targets, from, to);
  }

  lemma {:induction false} FlushInOrderEmpties(c: Config, b: Buffers, order: seq<nat>, shard: nat)
    ensures var r := FlushInOrder(c, b, order);
            && r.pendingTargetCount == b.pendingTargetCount
            && (b.readyBuffers != [] ==> r.readyBuffers != [])
            && (shard in r.partialBuffers && r.partialBuffers[shard] != [] ==> shard in b.partialBuffers && shard !in order)
  {
    if order != [] {
      FlushInOrderEmpties(c, b, order[..|order| - 1], shard);
    }
  }

  /** Settling a producer keeps the invariant; the last one leaves no partial buffer behind. */
  lemma ProducerFinishedKeepsInv(c: Config, q: Queue, abandoned: bool, order: seq<nat>)
    requires c.Valid() && QueueInv(c, q) && q.activeProducers > 0
    requires forall s :: s in q.buffers.partialBuffers ==> s in order
    ensures QueueInv(c, ProducerFinished(c, q, abandoned, order))
  {
    FlushInOrderKeepsInv(c, q.buffers, order);
    var r := FlushInOrder(c, q.buffers, order);
    forall shard
      ensures shard !in r.partialBuffers
    {
      FlushInOrderEmpties(c, q.buffers, order, shard);
      assert shard in r.partialBuffers ==> PartialOfShard(c, r, shard);
    }
    FlushInOrderEmpties(c, q.buffers, order, 0);
    EmptyBuffersInv(c);
  }

  lemma EmptyBuffersInv(c: Config)
    ensures BuffersInv(c, EMPTY)
  {
  }

  lemma ClaimKeepsInv(c: Config, q: Queue)
    requires QueueInv(c, q)
    ensures QueueInv(c, ClaimBuffer(q).0)
    ensures ClaimBuffer(q).1.Claimed? ==> BufferOfShard(c, ClaimBuffer(q).1.buffer)
  {
    var i := FirstClaimable(q.buffers.readyBuffers, q.busyShards);
    if i < |q.buffers.readyBuffers| {
      TakeReadyKeepsInv(c, q.buffers, i);
    }
  }
}
