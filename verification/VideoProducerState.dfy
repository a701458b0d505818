/** LerobotVideoProducerState with its fields updated in place. Every method is proved to perform
    the locked section of the same name in VideoQueue. */
module VideoProducerState {
  import opened Collections
  import opened VideoBuffers
  import Q = VideoQueue

  class ProducerState {
    const config: Q.Config
    const clusterGap: real
    const fps: Fps
    var activeProducers: nat
    var sourceExhausted: bool
    var stopRequested: bool
    var error: Option<nat>
    var partialBuffers: map<nat, seq<Target>>
    var partialLru: seq<nat>
    var readyBuffers: seq<DecodeBuffer>
    var busyShards: set<nat>
    var blockedProducers: seq<nat>
    var pendingTargetCount: int

    ghost function Snapshot(): Q.Queue
      reads this
    {
      Q.Queue(Buffers(), activeProducers, sourceExhausted, stopRequested, error, busyShards, blockedProducers)
    }

    ghost function Buffers(): Q.Buffers
      reads this`partialBuffers, this`partialLru, this`readyBuffers, this`pendingTargetCount
    {
      Q.Buffers(partialBuffers, partialLru, readyBuffers, pendingTargetCount)
    }

    ghost predicate Finalizes(buffer: DecodeBuffer) {
      config.finalize(buffer) == Finalized(buffer, clusterGap, fps)
    }

    /** Full buffers are finalized with the configured cluster gap and frame rate. */
    ghost predicate Valid() {
      config.Valid() && forall b :: Finalizes(b)
    }

    constructor (config: Q.Config, clusterGap: real, fps: Fps, producerThreads: nat)
      requires config.Valid()
      requires forall b {:trigger config.finalize(b)} :: config.finalize(b) == Finalized(b, clusterGap, fps)
      ensures Valid() && this.config == config
      ensures Snapshot() == Q.InitialQueue(config, producerThreads)
    {
      this.config, this.clusterGap, this.fps := config, clusterGap, fps;
      activeProducers := Q.Min(producerThreads, |config.queries|);
      sourceExhausted := Q.Min(producerThreads, |config.queries|) == 0;
      stopRequested, error := false, None;
      partialBuffers, partialLru, readyBuffers := map[], [], [];
      busyShards, blockedProducers, pendingTargetCount := {}, [], 0;
    }

    method TouchPartialBuffer(shard: nat)
      modifies this`partialLru
      ensures partialLru == [shard] + Q.Without(old(partialLru), shard)
    {
      partialLru := Q.Without(partialLru, shard);
      partialLru := [shard] + partialLru;
    }

    method FlushPartialBuffer(shard: nat)
      requires Valid()
      modifies this`partialBuffers, this`partialLru, this`readyBuffers
      ensures Buffers() == Q.FlushPartialBuffer(config, old(Buffers()), shard)
    {
      if shard !in partialBuffers || partialBuffers[shard] == [] {
        return;
      }
      var buffer := DecodeBuffer(shard, partialBuffers[shard], []);
      partialBuffers := partialBuffers - {shard};
      partialLru := Q.Without(partialLru, shard);
      assert Finalizes(buffer);
      buffer := FinalizeDecodeBuffer(buffer, clusterGap, fps);
      readyBuffers := readyBuffers + [buffer];
    }

    method FlushOldestPartialBuffer() returns (flushed: bool)
      requires Valid() && Q.LruMatches(Buffers())
      modifies this`partialBuffers, this`partialLru, this`readyBuffers
      ensures Buffers() == Q.FlushOldestPartialBuffer(config, old(Buffers()))
    {
      Q.EmptyTogether(Buffers());
      if partialBuffers == map[] {
        return false;
      }
      FlushPartialBuffer(partialLru[|partialLru| - 1]);
      flushed := true;
    }

    /** Buffers leave in whatever order the hash map yields them. */
    method FlushAllPartialBuffers() returns (ghost order: seq<nat>)
      requires Valid() && Q.Sharded(config, Buffers())
      modifies this`partialBuffers, this`partialLru, this`readyBuffers
      ensures Buffers() == Q.FlushInOrder(config, old(Buffers()), order)
      ensures forall s :: s in old(partialBuffers) ==> s in order
    {
      order := [];
      while partialBuffers != map[]
        invariant Buffers() == Q.FlushInOrder(config, old(Buffers()), order)
        invariant Q.Sharded(config, Buffers())
        invariant forall s :: s in old(partialBuffers) ==> s in order || s in partialBuffers
        decreases |partialBuffers.Keys|
      {
        ghost var keys := partialBuffers.Keys;
        assert exists s :: s in partialBuffers.Keys;
        var shard :| shard in partialBuffers.Keys;
        assert Q.PartialOfShard(config, Buffers(), shard);
        Q.FlushKeepsSharded(config, Buffers(), shard);
        FlushPartialBuffer(shard);
        assert (order + [shard])[..|order|] == order;
        order := order + [shard];
        assert partialBuffers.Keys == keys - {shard};
      }
    }

    method QueueTarget(target: Target)
      requires Valid()
      modifies this`partialBuffers, this`partialLru, this`readyBuffers, this`pendingTargetCount
      ensures Buffers() == Q.QueueTarget(config, old(Buffers()), target)
    {
      var shard := config.Shard(target);
      var targets := if shard in partialBuffers then partialBuffers[shard] else [];
      targets := targets + [target];
      partialBuffers := partialBuffers[shard := targets];
      TouchPartialBuffer(shard);
      pendingTargetCount := pendingTargetCount + 1;
      if |targets| >= config.targetBufferSize {
        FlushPartialBuffer(shard);
      }
    }

    /** `queued(i)` is what queueing the targets up to i makes of the buffers. */
    ghost predicate IsQueued(queued: int -> Q.Buffers, start: Q.Buffers, targets: seq<Target>, position: nat, i: int) {
      position <= i <= |targets| ==> queued(i) == Q.QueueAll(config, start, targets, position, i)
    }

    /** One pass of the queueing loop. */
    method QueueNextTarget(targets: seq<Target>, end: nat, ghost start: Q.Buffers, ghost position: nat,
                           ghost queued: int -> Q.Buffers)
      requires Valid() && position <= end < |targets|
      requires forall i :: IsQueued(queued, start, targets, position, i)
      requires Buffers() == queued(end)
      modifies this`partialBuffers, this`partialLru, this`readyBuffers, this`pendingTargetCount
      ensures pendingTargetCount == old(pendingTargetCount) + 1
      ensures Buffers() == queued(end + 1)
    {
      assert IsQueued(queued, start, targets, position, end) && IsQueued(queued, start, targets, position, end + 1);
      Q.QueueTargetCounts(config, Buffers(), targets[end]);
      QueueTarget(targets[end]);
    }

    /** Drop everything pending after a stop; after the last producer, flush it. */
    method SettleBuffers() returns (ghost order: seq<nat>)
      requires Valid() && Q.Sharded(config, Buffers())
      modifies this`partialBuffers, this`partialLru, this`readyBuffers, this`pendingTargetCount
      ensures Buffers() == if stopRequested then Q.EMPTY
                           else if activeProducers == 0 then Q.FlushInOrder(config, old(Buffers()), order) else old(Buffers())
      ensures !stopRequested && activeProducers == 0 ==> forall s :: s in old(partialBuffers) ==> s in order
      ensures stopRequested || activeProducers > 0 ==> order == old(partialLru)
    {
      order := partialLru;
      if stopRequested {
        partialBuffers, partialLru, readyBuffers, pendingTargetCount := map[], [], [], 0;
      } else if activeProducers == 0 {
        order := FlushAllPartialBuffers();
      }
    }

    /** The queueing loop: one target at a time while the pending count is below its bound. */
    method QueueUpToBound(targets: seq<Target>, position: nat, ghost start: Q.Buffers, ghost queued: int -> Q.Buffers)
      returns (end: nat)
      requires Valid() && position <= |targets| && forall i :: IsQueued(queued, start, targets, position, i)
      requires Buffers() == queued(position)
      modifies this`partialBuffers, this`partialLru, this`readyBuffers, this`pendingTargetCount
      ensures position <= end <= |targets|
      ensures end == |targets| || pendingTargetCount >= config.maxPendingTargets
      ensures end == position || pendingTargetCount <= config.maxPendingTargets
      ensures pendingTargetCount == old(pendingTargetCount) + (end - position)
      ensures Buffers() == queued(end)
    {
      end := position;
      while end < |targets| && pendingTargetCount < config.maxPendingTargets
        invariant position <= end <= |targets|
        invariant pendingTargetCount == old(pendingTargetCount) + (end - position)
        invariant end == position || pendingTargetCount <= config.maxPendingTargets
        invariant Buffers() == queued(end)
      {
        QueueNextTarget(targets, end, start, position, queued);
        end := end + 1;
      }
    }

    method QueueWhileRoom(targets: seq<Target>, position: nat) returns (end: nat)
      requires Valid() && position <= |targets|
      modifies this`partialBuffers, this`partialLru, this`readyBuffers, this`pendingTargetCount
      ensures position <= end <= |targets|
      ensures end == |targets| || pendingTargetCount >= config.maxPendingTargets
      ensures end == position || pendingTargetCount <= config.maxPendingTargets
      ensures pendingTargetCount == old(pendingTargetCount) + (end - position)
      ensures Buffers() == Q.QueueAll(config, old(Buffers()), targets, position, end)
    {
      ghost var start := Buffers();
      ghost var queued :=
        (i: int) => if position <= i <= |targets| then Q.QueueAll(config, start, targets, position, i) else start;
      assert forall i :: IsQueued(queued, start, targets, position, i);
      end := QueueUpToBound(targets, position, start, queued);
    }

    method BlockProducer(producer: nat)
      requires Valid() && Q.LruMatches(Buffers())
      modifies this`partialBuffers, this`partialLru, this`readyBuffers, this`blockedProducers
      ensures Snapshot() == Q.BlockProducer(config, old(Snapshot()), producer)
    {
      var _ := FlushOldestPartialBuffer();
      blockedProducers := blockedProducers + [producer];
    }

    method QueueTargets(targets: seq<Target>, position: nat, producer: nat)
      returns (end: nat, result: Q.QueueResult)
      requires Valid() && Q.BuffersInv(config, Buffers())
      requires position <= |targets|
      modifies this`partialBuffers, this`partialLru, this`readyBuffers, this`pendingTargetCount, this`blockedProducers
      ensures (Snapshot(), end, result) == Q.QueueTargets(config, old(Snapshot()), targets, position, producer)
    {
      if stopRequested {
        return position, Q.Stopped;
      }
      ghost var before, was := Buffers(), Snapshot();
      end := QueueWhileRoom(targets, position);
      assert end == Q.QueueEnd(config, was, targets, position);
      ghost var queued := was.(buffers := Q.QueueAll(config, before, targets, position, end));
      assert Snapshot() == queued;
      if end == |targets| {
        return end, Q.Queued;
      }
      Q.QueueAllKeepsLru(config, before, targets, position, end);
      BlockProducer(producer);
      result := Q.QueueBlocked;
    }

    method ProducerFinished(abandoned: bool) returns (ghost order: seq<nat>)
      requires Valid() && activeProducers > 0 && Q.BuffersInv(config, Buffers())
      modifies this
      ensures Snapshot() == Q.ProducerFinished(config, old(Snapshot()), abandoned, order)
      ensures forall s :: s in old(partialBuffers) ==> s in order
    {
      if abandoned {
        stopRequested := true;
      }
      activeProducers := activeProducers - 1;
      order := SettleBuffers();
      if activeProducers == 0 {
        sourceExhausted := true;
      }
    }

    /** Scan the ready buffers front to back for one whose shard no consumer holds. */
    method TryClaimReady() returns (found: bool, buffer: DecodeBuffer)
      modifies this`readyBuffers, this`busyShards, this`pendingTargetCount
      ensures var i := Q.FirstClaimable(old(readyBuffers), old(busyShards));
              && found == (i < |old(readyBuffers)|)
              && (found ==>
                    && buffer == old(readyBuffers)[i]
                    && Buffers() == Q.TakeReady(old(Buffers()), i)
                    && busyShards == old(busyShards) + {buffer.shardIndex})
              && (!found ==> Snapshot() == old(Snapshot()))
    {
      buffer := DecodeBuffer(0, [], []);
      for entry := 0 to |readyBuffers|
        invariant Snapshot() == old(Snapshot())
        invariant forall k :: 0 <= k < entry ==> readyBuffers[k].shardIndex in busyShards
      {
        var shard := readyBuffers[entry].shardIndex;
        if shard !in busyShards {
          buffer := readyBuffers[entry];
          readyBuffers := readyBuffers[..entry] + readyBuffers[entry + 1..];
          busyShards := busyShards + {shard};
          pendingTargetCount := pendingTargetCount - |buffer.targets|;
          return true, buffer;
        }
      }
      found := false;
    }

    method ClaimBuffer() returns (result: Q.ClaimResult)
      modifies this`readyBuffers, this`busyShards, this`pendingTargetCount, this`blockedProducers
      ensures (Snapshot(), result) == Q.ClaimBuffer(old(Snapshot()))
    {
      if error.Some? {
        return Q.Failed(error.value);
      }
      var found, buffer := TryClaimReady();
      if found {
        blockedProducers := [];
        return Q.Claimed(buffer);
      }
      result := if sourceExhausted || stopRequested then Q.Finished else Q.ClaimBlocked;
    }

    method FinishBuffer(shard: nat)
      modifies this`busyShards
      ensures Snapshot() == Q.FinishBuffer(old(Snapshot()), shard)
    {
      busyShards := busyShards - {shard};
    }

    method RequestStop()
      modifies this`stopRequested, this`blockedProducers
      ensures Snapshot() == Q.RequestStop(old(Snapshot()))
    {
      stopRequested := true;
      blockedProducers := [];
    }

    method Fail(exception: nat)
      modifies this`error, this`stopRequested, this`blockedProducers
      ensures Snapshot() == Q.Fail(old(Snapshot()), exception)
    {
      if error.None? {
        error := Some(exception);
      }
      stopRequested := true;
      blockedProducers := [];
    }
  }
}
