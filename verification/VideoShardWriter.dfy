/** RegisterEncodedVideo and MaterializeVideoShard for one video feature, and the timestamp offsets of
    ConcatenateVideos. */
module VideoShardWriter {
  import opened Split
  import opened FileSeries
  import opened VideoShards

  /** Fragments, bytes and duration are those of the clips since the last cut; earlier shards are on file. */
  ghost predicate Collects(clips: seq<Clip>, cuts: seq<nat>, n: nat, chunkSize: nat, file: FileId, fragments: seq<nat>,
                           bytes: nat, duration: real, files: Files<nat>) {
    && |cuts| > 1 && file == Nth(|cuts| - 2, chunkSize)
    && cuts[|cuts| - 2] < n <= |clips| && fragments != []
    && IsRun(fragments, cuts[|cuts| - 2], n)
    && bytes == Bytes(clips, cuts[|cuts| - 2], n) && duration == Duration(clips, cuts[|cuts| - 2], n)
    && ShardsHold(files, cuts, chunkSize, |cuts| - 2)
  }

  class ShardWriter {
    const limit: real
    const chunkSize: nat
    /** All clips of the feature, in episode order, whether registered yet or not. */
    ghost const clips: seq<Clip>

    var initialized: bool
    var file: FileId
    var duration: real
    var fragmentBytes: nat
    var fragments: seq<nat>
    var files: Files<nat>

    ghost var n: nat
    ghost var cuts: seq<nat>
    ghost var routes: seq<Route>

    ghost predicate SplitOk()
      reads this
    {
      && n <= |clips| && cuts == ShardCuts(clips, limit, n) && Tiles(cuts, n)
      && RoutesFollow(clips, cuts, routes, chunkSize, n)
    }

    /** The fragments collected are those of the last shard. */
    ghost predicate Collecting()
      reads this
    {
      initialized && Collects(clips, cuts, n, chunkSize, file, fragments, fragmentBytes, duration, files)
    }

    ghost predicate Valid()
      reads this
    {
      SplitOk() && if n == 0 then !initialized && cuts == [0] && fragments == [] && fragmentBytes == 0 && files == map[] else Collecting()
    }

    /** All shards are on file. */
    ghost predicate Finished()
      reads this
    {
      SplitOk() && fragments == [] && ShardsHold(files, cuts, chunkSize, |cuts| - 1)
    }

    constructor (limit: real, chunkSize: nat, ghost clips: seq<Clip>)
      ensures Valid() && n == 0 && this.clips == clips && this.limit == limit && this.chunkSize == chunkSize
    {
      this.limit, this.chunkSize, this.clips := limit, chunkSize, clips;
      initialized, file, duration, fragmentBytes, fragments, files := false, FileId(0, 0), 0.0, 0, [], map[];
      n, cuts, routes := 0, [0], [];
    }

    /** Write the collected fragments as one file. */
    method Materialize()
      requires Valid()
      modifies this`fragmentBytes, this`fragments, this`files
      ensures Finished() && fragmentBytes == 0
    {
      if fragments == [] {
        return;
      }
      assert cuts[|cuts| - 1] == n;
      ShardWritten(files, cuts, chunkSize, fragments);
      assert file !in files;
      files := files[file := fragments];
      fragments := [];
      fragmentBytes := 0;
    }

    /** Does the next clip go with the collected fragments? */
    method FitsShard(bytes: nat) returns (joins: bool)
      requires Valid() && n < |clips| && clips[n].bytes == bytes && initialized
      ensures joins == Joins(clips, limit, cuts, n)
    {
      var projectedSize := fragmentBytes as real + bytes as real;
      joins := projectedSize < limit;
      assert Bytes(clips, cuts[|cuts| - 2], n + 1) == fragmentBytes + bytes;
    }

    /** Take the clip of the next episode; refused exactly when its shard gets too large to count. */
    method Register(clip: Clip, episode: nat) returns (ok: bool, route: Route)
      requires Valid() && n < |clips| && clip == clips[n] && episode == n
      modifies this
      ensures ok <==> !TooLarge(clips, limit, old(n))
      ensures ok ==> Valid() && n == old(n) + 1 && routes == old(routes) + [route]
    {
      route := Route(file, 0.0, 0.0);
      ghost var joins := false;
      if !initialized {
        initialized := true;
        file := FileId(0, 0);
        duration := 0.0;
      } else {
        joins := true;
        var fits := FitsShard(clip.bytes);
        if !fits {
          joins := false;
          Materialize();
          file := AdvanceFileIndex(file, chunkSize);
          duration := 0.0;
        }
      }
      ok, route := Add(clip, episode, joins);
    }

    /** Ready to add clip n to the last shard, or as the first of a new one. */
    ghost predicate Ready(joins: bool)
      reads this
    {
      && SplitOk() && n < |clips| && initialized && joins == Joins(clips, limit, cuts, n)
      && if joins then Collecting()
         else
           && |cuts| >= 1 && file == Nth(|cuts| - 1, chunkSize) && fragments == [] && fragmentBytes == 0 && duration == 0.0
           && ShardsHold(files, cuts, chunkSize, |cuts| - 1)
    }

    lemma AddingKeepsCollecting(joins: bool, next: seq<nat>)
      requires Ready(joins) && next == NextCuts(cuts, n, joins)
      ensures |next| > 1 && next[|next| - 2] <= n && file == Nth(|next| - 2, chunkSize)
      ensures fragmentBytes == Bytes(clips, next[|next| - 2], n) && duration == Duration(clips, next[|next| - 2], n)
      ensures Collects(clips, next, n + 1, chunkSize, file, fragments + [n], fragmentBytes + clips[n].bytes,
                       duration + clips[n].duration, files)
    {
      assert cuts[|cuts| - 1] == n;
      if |cuts| > 1 {
        EarlierShardsStay(files, cuts, n, joins, chunkSize);
      }
    }

    method Add(clip: Clip, episode: nat, ghost joins: bool) returns (ok: bool, route: Route)
      requires Ready(joins) && clip == clips[n] && episode == n
      modifies this`fragments, this`fragmentBytes, this`duration, this`n, this`cuts, this`routes
      ensures ok <==> !TooLarge(clips, limit, old(n))
      ensures ok ==> Valid() && n == old(n) + 1 && routes == old(routes) + [route]
    {
      ghost var next := NextCuts(cuts, n, joins);
      AddingKeepsCollecting(joins, next);
      ok := fragmentBytes <= MAX_BYTES - clip.bytes;
      route := Route(file, duration, duration + clip.duration);
      if ok {
        CutsAndRoutes(joins, next, route);
        Append(clip, episode, next, route);
      }
    }

    lemma CutsAndRoutes(joins: bool, next: seq<nat>, route: Route)
      requires Ready(joins) && next == NextCuts(cuts, n, joins) && |next| > 1 && file == Nth(|next| - 2, chunkSize)
      requires next[|next| - 2] <= n && duration == Duration(clips, next[|next| - 2], n)
      requires route == Route(file, duration, duration + clips[n].duration)
      ensures next == ShardCuts(clips, limit, n + 1) && Tiles(next, n + 1)
      ensures RoutesFollow(clips, next, routes + [route], chunkSize, n + 1)
    {
      NextShardCuts(clips, limit, cuts, n);
      ShardCutsAreGreedy(clips, limit, n + 1);
      RoutesOneMore(clips, cuts, n, joins, routes, chunkSize);
    }

    method Append(clip: Clip, episode: nat, ghost next: seq<nat>, ghost route: Route)
      requires n < |clips| && clip == clips[n] && episode == n && initialized
      requires next == ShardCuts(clips, limit, n + 1) && Tiles(next, n + 1)
      requires RoutesFollow(clips, next, routes + [route], chunkSize, n + 1)
      requires Collects(clips, next, n + 1, chunkSize, file, fragments + [n], fragmentBytes + clips[n].bytes,
                        duration + clips[n].duration, files)
      modifies this`fragments, this`fragmentBytes, this`duration, this`n, this`cuts, this`routes
      ensures Valid() && n == old(n) + 1 && routes == old(routes) + [route]
    {
      fragments := fragments + [episode];
      fragmentBytes := fragmentBytes + clip.bytes;
      duration := duration + clip.duration;
      n, cuts, routes := n + 1, next, routes + [route];
    }
  }

  /** All clips of a feature, registered one by one and written out at the end. */
  method WriteShards(clips: seq<Clip>, limit: real, chunkSize: nat) returns (ok: bool, writer: ShardWriter)
    ensures writer.clips == clips && writer.limit == limit && writer.chunkSize == chunkSize
    ensures ok <==> forall i: nat :: i < |clips| ==> !TooLarge(clips, limit, i)
    ensures ok ==> writer.Finished() && writer.n == |clips|
    ensures ok ==> FewestParts(clips, limit, writer.cuts)
  {
    writer := new ShardWriter(limit, chunkSize, clips);
    for i := 0 to |clips|
      invariant writer.Valid() && writer.n == i && fresh(writer)
      invariant writer.clips == clips && writer.limit == limit && writer.chunkSize == chunkSize
      invariant forall j: nat :: j < i ==> !TooLarge(clips, limit, j)
    {
      var registered, _ := writer.Register(clips[i], i);
      if !registered {
        return false, writer;
      }
    }
    if |clips| > 0 {
      writer.Materialize();
    }
    ShardsAreMinimal(clips, limit, writer.cuts);
    ok := true;
  }

  // Joining fragments ----------------------------------------------------------------------------------

  /** A fragment's packets, in the time base of the output: where it starts, how long it lasts, and its
      presentation times. */
  datatype Fragment = Fragment(start: int, duration: int, times: seq<int>)

  const MAX_TIME: int := 0x7FFF_FFFF_FFFF_FFFF
  const MIN_TIME: int := -0x8000_0000_0000_0000

  function Offset(fragments: seq<Fragment>, k: nat): int
    requires k <= |fragments|
  {
    if k == 0 then 0 else Offset(fragments, k - 1) + fragments[k - 1].duration
  }

  function Shifted(times: seq<int>, delta: int): (r: seq<int>)
    ensures |r| == |times| && forall i :: 0 <= i < |r| ==> r[i] == times[i] + delta
  {
    seq(|times|, i requires 0 <= i < |times| => times[i] + delta)
  }

  /** Packet times of the first k fragments, each fragment moved behind the ones before it. */
  function Concatenated(fragments: seq<Fragment>, k: nat): seq<int>
    requires k <= |fragments|
  {
    if k == 0 then []
    else
      Concatenated(fragments, k - 1) + Shifted(fragments[k - 1].times, Offset(fragments, k - 1) - fragments[k - 1].start)
  }

  predicate Representable(t: int) {
    -0x8000_0000_0000_0000 <= t <= 0x7FFF_FFFF_FFFF_FFFF
  }

  /** No sum that the loop computes leaves the 64-bit range. */
  ghost predicate FitsTimeBase(fragments: seq<Fragment>, k: nat)
    requires k < |fragments|
  {
    var delta := Offset(fragments, k) - fragments[k].start;
    && Representable(delta) && Representable(Offset(fragments, k + 1))
    && forall i :: 0 <= i < |fragments[k].times| ==> Representable(fragments[k].times[i] + delta)
  }

  method AddTimestamp(left: int, right: int) returns (ok: bool, sum: int)
    requires Representable(left) && Representable(right)
    ensures ok <==> Representable(left + right)
    ensures ok ==> sum == left + right
  {
    sum := 0;
    ok := !((right > 0 && left > MAX_TIME - right) || (right < 0 && left < MIN_TIME - right));
    if ok {
      sum := left + right;
    }
  }

  method ShiftPackets(times: seq<int>, delta: int) returns (ok: bool, shifted: seq<int>)
    requires Representable(delta) && forall i :: 0 <= i < |times| ==> Representable(times[i])
    ensures ok <==> forall i :: 0 <= i < |times| ==> Representable(times[i] + delta)
    ensures ok ==> shifted == Shifted(times, delta)
  {
    shifted := [];
    for i := 0 to |times|
      invariant |shifted| == i
      invariant forall j :: 0 <= j < i ==> shifted[j] == times[j] + delta && Representable(times[j] + delta)
    {
      var added, sum := AddTimestamp(times[i], delta);
      if !added {
        return false, shifted;
      }
      shifted := shifted + [sum];
    }
    ok := true;
  }

  /** A fragment as the demuxer reports it. */
  predicate Readable(f: Fragment) {
    && 0 < f.duration <= MAX_TIME && MIN_TIME < f.start <= MAX_TIME
    && forall i :: 0 <= i < |f.times| ==> Representable(f.times[i])
  }

  /** Append the fragments' packets with a running offset; fails exactly when a time would overflow. */
  method Concatenate(fragments: seq<Fragment>) returns (ok: bool, times: seq<int>)
    requires forall k :: 0 <= k < |fragments| ==> Readable(fragments[k])
    ensures ok <==> forall k :: 0 <= k < |fragments| ==> FitsTimeBase(fragments, k)
    ensures ok ==> times == Concatenated(fragments, |fragments|)
  {
    times := [];
    var offset := 0;
    for k := 0 to |fragments|
      invariant offset == Offset(fragments, k) && Representable(offset)
      invariant times == Concatenated(fragments, k)
      invariant forall j :: 0 <= j < k ==> FitsTimeBase(fragments, j)
    {
      var f := fragments[k];
      assert Readable(f);
      var hasDelta, delta := AddTimestamp(offset, -f.start);
      if !hasDelta {
        assert !FitsTimeBase(fragments, k);
        return false, times;
      }
      var moved, shifted := ShiftPackets(f.times, delta);
      if !moved {
        assert !FitsTimeBase(fragments, k);
        return false, times;
      }
      times := times + shifted;
      var advanced, next := AddTimestamp(offset, f.duration);
      if !advanced {
        assert !FitsTimeBase(fragments, k);
        return false, times;
      }
      offset := next;
    }
    ok := true;
  }

  function PacketsBefore(fragments: seq<Fragment>, k: nat): nat
    requires k <= |fragments|
  {
    if k == 0 then 0 else PacketsBefore(fragments, k - 1) + |fragments[k - 1].times|
  }

  lemma {:induction false} ConcatenatedAt(fragments: seq<Fragment>, n: nat, k: nat, i: nat)
    requires k < n <= |fragments| && i < |fragments[k].times|
    ensures |Concatenated(fragments, n)| == PacketsBefore(fragments, n)
    ensures PacketsBefore(fragments, k) + i < PacketsBefore(fragments, n)
    ensures Concatenated(fragments, n)[PacketsBefore(fragments, k) + i]
            == fragments[k].times[i] - fragments[k].start + Offset(fragments, k)
    decreases n
  {
    ConcatenatedLength(fragments, n - 1);
    if k < n - 1 {
      ConcatenatedAt(fragments, n - 1, k, i);
    }
  }

  lemma {:induction false} ConcatenatedLength(fragments: seq<Fragment>, n: nat)
    requires n <= |fragments|
    ensures |Concatenated(fragments, n)| == PacketsBefore(fragments, n)
  {
    if n > 0 {
      ConcatenatedLength(fragments, n - 1);
    }
  }

  /** A packet within its fragment ends up between the fragment's offset and the next one's: in the part
      of the shard that the episode's route names. */
  lemma PacketsStayInTheirPart(fragments: seq<Fragment>, k: nat, i: nat)
    requires k < |fragments| && i < |fragments[k].times|
    requires fragments[k].start <= fragments[k].times[i] < fragments[k].start + fragments[k].duration
    ensures var at := PacketsBefore(fragments, k) + i;
            && at < |Concatenated(fragments, |fragments|)|
            && Offset(fragments, k) <= Concatenated(fragments, |fragments|)[at] < Offset(fragments, k + 1)
  {
    ConcatenatedAt(fragments, |fragments|, k, i);
  }
}
