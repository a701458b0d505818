/** LerobotDecoderCache: a bounded pool of open video decoders, with idle ones kept per shard and
    one list of shards in order of release. */
module DecoderCache {
  import Q = DecoderPool

  function FirstIndex(list: seq<nat>, shard: nat): (k: nat)
    requires shard in list
    ensures k < |list| && list[k] == shard && forall j :: 0 <= j < k ==> list[j] != shard
  {
    if list[0] == shard then 0 else 1 + FirstIndex(list[1..], shard)
  }

  /** The list is the idle decoders' shards, most recently released first. */
  ghost predicate Lists(idleLru: seq<nat>, idle: seq<Q.Entry>) {
    idleLru == Q.Shards(idle)
  }

  /** The map holds, per shard with idle decoders, its decoders, least recently released first. */
  ghost predicate Holds(idleDecoders: map<nat, seq<Q.Handle>>, idle: seq<Q.Entry>) {
    forall shard: nat :: HoldsShard(idleDecoders, idle, shard)
  }

  ghost predicate HoldsShard(idleDecoders: map<nat, seq<Q.Handle>>, idle: seq<Q.Entry>, shard: nat) {
    && (shard in idleDecoders <==> Q.OfShard(idle, shard) != [])
    && (shard in idleDecoders ==> idleDecoders[shard] == Q.OfShard(idle, shard))
  }

  lemma FirstIndexIs(list: seq<nat>, shard: nat, k: nat)
    requires k < |list| && list[k] == shard && forall j :: 0 <= j < k ==> list[j] != shard
    ensures shard in list && FirstIndex(list, shard) == k
  {
    assert shard in list;
    var found := FirstIndex(list, shard);
    assert !(found < k) && !(k < found);
  }

  lemma FirstIsNewest(idle: seq<Q.Entry>, shard: nat)
    requires Q.Newest(idle, shard) >= 0
    ensures shard in Q.Shards(idle)
    ensures FirstIndex(Q.Shards(idle), shard) == |idle| - 1 - Q.Newest(idle, shard)
  {
    var list, i := Q.Shards(idle), Q.Newest(idle, shard);
    var k := |idle| - 1 - i;
    forall j | 0 <= j < k ensures list[j] != shard {
      assert list[j] == idle[|idle| - 1 - j].handle.shard;
    }
    FirstIndexIs(list, shard, k);
  }

  function Erase(list: seq<nat>, k: nat): (r: seq<nat>)
    requires k < |list|
    ensures |r| == |list| - 1
    ensures forall j :: 0 <= j < |r| ==> r[j] == list[if j < k then j else j + 1]
  {
    list[..k] + list[k + 1..]
  }

  /** Erasing a list entry removes the decoder it stands for. */
  lemma ListsWithout(idle: seq<Q.Entry>, k: nat)
    requires k < |idle|
    ensures Erase(Q.Shards(idle), k) == Q.Shards(Q.Without(idle, |idle| - 1 - k))
  {
  }

  lemma LastIsOldest(idle: seq<Q.Entry>)
    requires idle != []
    ensures Q.Shards(idle)[|idle| - 1] == idle[0].handle.shard
    ensures Q.Shards(idle)[..|idle| - 1] == Q.Shards(Q.Without(idle, 0))
  {
    ListsWithout(idle, |idle| - 1);
    assert Q.Shards(idle)[..|idle| - 1] == Erase(Q.Shards(idle), |idle| - 1);
  }

  /** The map with one shard's deque replaced; empty deques have no entry. */
  function WithDeque(m: map<nat, seq<Q.Handle>>, shard: nat, deque: seq<Q.Handle>): map<nat, seq<Q.Handle>> {
    if deque == [] then m - {shard} else m[shard := deque]
  }

  lemma HoldsWithout(before: map<nat, seq<Q.Handle>>, idle: seq<Q.Entry>, i: nat)
    requires Holds(before, idle) && i < |idle|
    ensures var rest := Q.Without(idle, i);
            Holds(WithDeque(before, idle[i].handle.shard, Q.OfShard(rest, idle[i].handle.shard)), rest)
  {
    var s, rest := idle[i].handle.shard, Q.Without(idle, i);
    forall shard: nat ensures HoldsShard(WithDeque(before, s, Q.OfShard(rest, s)), rest, shard) {
      if shard != s {
        assert HoldsShard(before, idle, shard);
        Q.OfShardWithout(idle, i, shard);
      }
    }
  }

  lemma HoldsReleased(before: map<nat, seq<Q.Handle>>, idle: seq<Q.Entry>, e: Q.Entry)
    requires Holds(before, idle)
    ensures var s := e.handle.shard;
            Holds(before[s := (if s in before then before[s] else []) + [e.handle]], idle + [e])
  {
    var s := e.handle.shard;
    var after := before[s := (if s in before then before[s] else []) + [e.handle]];
    forall shard: nat ensures HoldsShard(after, idle + [e], shard) {
      assert HoldsShard(before, idle, shard);
      Q.OfShardAppends(idle, [e], shard);
      Q.OfShardSingle(e, shard);
    }
  }

  class Cache {
    const maxCachedDecoders: nat
    var openCount: nat
    var idleLru: seq<nat>
    var idleDecoders: map<nat, seq<Q.Handle>>
    ghost var pool: Q.Pool

    ghost predicate Valid()
      reads this
    {
      openCount == pool.openCount && Lists(idleLru, pool.idle) && Holds(idleDecoders, pool.idle)
    }

    constructor (maxCachedDecoders: nat)
      ensures Valid() && pool == Q.Pool([], 0, 0) && this.maxCachedDecoders == maxCachedDecoders
    {
      this.maxCachedDecoders := maxCachedDecoders;
      openCount, idleLru, idleDecoders, pool := 0, [], map[], Q.Pool([], 0, 0);
    }

    /** Take the newest idle decoder of the shard. */
    method TakeBack(shard: nat) returns (handle: Q.Handle)
      requires Valid() && shard in idleDecoders
      modifies this`idleLru, this`idleDecoders, this`pool
      ensures Valid()
      ensures (pool, Q.Hit(handle)) == Q.Acquire(old(pool), maxCachedDecoders, shard)
    {
      assert HoldsShard(idleDecoders, pool.idle, shard);
      ghost var idle, i := pool.idle, Q.Newest(pool.idle, shard);
      Q.NewestIsBack(idle, shard);
      FirstIsNewest(idle, shard);
      ListsWithout(idle, |idle| - 1 - i);
      HoldsWithout(idleDecoders, idle, i);
      var entry := idleDecoders[shard];
      handle := entry[|entry| - 1];
      idleDecoders := WithDeque(idleDecoders, shard, entry[..|entry| - 1]);
      var lruEntry := FirstIndex(idleLru, shard);
      idleLru := Erase(idleLru, lruEntry);
      pool := pool.(idle := Q.Without(idle, i));
    }

    /** Take the least recently released idle decoder of all. */
    method TakeOldest() returns (handle: Q.Handle)
      requires Valid() && idleLru != []
      modifies this`idleLru, this`idleDecoders, this`pool
      ensures Valid() && old(pool.idle) != []
      ensures handle == old(pool).idle[0].handle && pool == old(pool).(idle := Q.Without(old(pool).idle, 0))
    {
      ghost var idle := pool.idle;
      LastIsOldest(idle);
      HoldsWithout(idleDecoders, idle, 0);
      var staleShard := idleLru[|idleLru| - 1];
      assert HoldsShard(idleDecoders, idle, staleShard);
      Q.OldestIsFront(idle);
      idleLru := idleLru[..|idleLru| - 1];
      var entry := idleDecoders[staleShard];
      handle := entry[0];
      idleDecoders := WithDeque(idleDecoders, staleShard, entry[1..]);
      pool := pool.(idle := Q.Without(idle, 0));
    }

    /** One pass of Acquire under the lock. */
    method Acquire(shard: nat) returns (r: Q.AcquireResult)
      requires Valid()
      modifies this
      ensures Valid() && (pool, r) == Q.Acquire(old(pool), maxCachedDecoders, shard)
    {
      assert HoldsShard(idleDecoders, pool.idle, shard);
      Q.NewestIsBack(pool.idle, shard);
      if shard in idleDecoders {
        var handle := TakeBack(shard);
        return Q.Hit(handle);
      }
      if openCount < maxCachedDecoders {
        openCount := openCount + 1;
        pool := pool.(openCount := openCount);
        return Q.Reserved;
      }
      if idleLru == [] {
        return Q.MustWait;
      }
      var stale := TakeOldest();
      r := Q.Evicted(stale);
    }

    method OpenFailed()
      requires Valid() && openCount > 0
      modifies this`openCount, this`pool
      ensures Valid() && pool == Q.OpenFailed(old(pool))
    {
      openCount := openCount - 1;
      pool := Q.OpenFailed(pool);
    }

    method Release(handle: Q.Handle)
      requires Valid()
      modifies this`idleLru, this`idleDecoders, this`pool
      ensures Valid() && pool == Q.Release(old(pool), handle)
    {
      ghost var idle, e := pool.idle, Q.Entry(handle, pool.clock);
      var shard := handle.shard;
      HoldsReleased(idleDecoders, idle, e);
      idleLru := [shard] + idleLru;
      idleDecoders := idleDecoders[shard := (if shard in idleDecoders then idleDecoders[shard] else []) + [handle]];
      pool := Q.Release(pool, handle);
      assert (idle + [e])[..|idle|] == idle;
    }

    method Discard()
      requires Valid() && openCount > 0
      modifies this`openCount, this`pool
      ensures Valid() && pool == Q.Discard(old(pool))
    {
      openCount := openCount - 1;
      pool := Q.Discard(pool);
    }
  }
}
