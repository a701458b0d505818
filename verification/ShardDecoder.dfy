/** LerobotShardDecoder: nearest-frame selection over one video file. A seek to t lands at frame `landing(t)`, at
    or before t; frames are then read one by one, and the last two are retained. */
module ShardDecoder {
  import opened Split
  import opened VideoBuffers
  import opened FrameWindow

  const DECODE_FRAME_SAFETY_MARGIN: nat := 20000
  const TIMESTAMP_SLACK: real := 0.000000001

  function DecodeFrameBudget(first: real, last: real, fps: Fps): nat {
    var expected := EstimateFrameSpan(first, last, fps);
    if expected > MAX_IDX - DECODE_FRAME_SAFETY_MARGIN then MAX_IDX else expected + DECODE_FRAME_SAFETY_MARGIN
  }

  /** The budget in numbers: 20001 frames more than those between the first and the last target. */
  lemma BudgetInNumbers(first: real, last: real, fps: Fps, c: nat, needed: nat)
    requires FramesBetween(c, first, last, fps) && needed <= 0xFFFF_FFFF_FFFF_FFFF
    ensures needed > DecodeFrameBudget(first, last, fps) <==> needed > c + 20001
  {
    SpanInNumbers(first, last, fps, c);
  }

  lemma SomeFramesBetween(first: real, last: real, fps: Fps) returns (c: nat)
    ensures FramesBetween(c, first, last, fps)
  {
    if last <= first {
      c := 0;
    } else {
      assert (last - first) * fps as real >= 0.0;
      c := Ceiling((last - first) * fps as real);
    }
  }

  ghost predicate NotLater(targets: seq<Target>, i: nat, j: nat)
    requires i < |targets| && j < |targets|
  {
    targets[i].videoTimestamp <= targets[j].videoTimestamp
  }

  ghost predicate SortedByTime(targets: seq<Target>) {
    forall i: nat, j: nat :: i <= j < |targets| ==> NotLater(targets, i, j)
  }

  /** What BeginBuffer relies on: sorted targets, cut into consecutive clusters. */
  ghost predicate Decodable(buffer: DecodeBuffer, cuts: seq<nat>) {
    && buffer.targets != []
    && SortedByTime(buffer.targets)
    && Tiles(cuts, |buffer.targets|)
    && ArePartsOf(buffer.clusters, cuts)
  }

  /** The first cluster starts with target 0 and lists existing targets. */
  predicate StartsWithTargets(buffer: DecodeBuffer) {
    && buffer.targets != [] && buffer.clusters != [] && buffer.clusters[0] != []
    && buffer.clusters[0][0] == 0
    && buffer.clusters[0][|buffer.clusters[0]| - 1] < |buffer.targets|
  }

  lemma DecodableStarts(buffer: DecodeBuffer, cuts: seq<nat>)
    requires Decodable(buffer, cuts)
    ensures StartsWithTargets(buffer)
  {
    assert Rises(cuts, 0) && IsPart(buffer.clusters, cuts, 0);
    CutsAreBounded(cuts, |buffer.targets|, 1);
  }

  lemma SortedIsByTime(targets: seq<Target>)
    requires Sorted(targets)
    ensures SortedByTime(targets)
  {
    forall i: nat, j: nat | i <= j < |targets| ensures NotLater(targets, i, j) {
      assert i < j ==> !Before(targets[j], targets[i]);
    }
  }

  /** Finalized buffers are decodable. */
  lemma FinalizedIsDecodable(buffer: DecodeBuffer, gap: real, fps: Fps)
    requires buffer.targets != []
    ensures exists cuts :: Decodable(Finalized(buffer, gap, fps), cuts)
  {
    var done := Finalized(buffer, gap, fps);
    var cuts := ClusterCuts(done.targets, gap, fps, |done.targets|);
    ClusterCutsAreGreedy(done.targets, gap, fps, |done.targets|);
    PartsArePartsOf(cuts, |done.targets|);
    SortedIsByTime(done.targets);
    assert Decodable(done, cuts);
  }

  function Later(a: real, b: real): real {
    if a < b then b else a
  }

  class Decoder {
    const shardIndex: nat
    const frames: seq<real>
    const landing: real -> nat
    const tolerance: real
    const clusterGap: real
    const fps: Fps

    var buffer: DecodeBuffer
    var haveBuffer: bool
    ghost var cuts: seq<nat>
    var clusterPosition: nat
    var targetPosition: nat

    var cursor: nat
    var havePrevious: bool
    var haveCurrent: bool
    var decoderEof: bool
    var previousTimestamp: real
    var currentTimestamp: real
    var framesSinceSeek: nat
    var frameBudget: nat
    /** Where the last seek landed, and the latest target time since then. */
    ghost var landedAt: nat
    ghost var highest: real

    var haveLastTarget: bool
    var lastTargetTimestamp: real
    var haveClusterStart: bool
    var clusterStartTimestamp: real

    ghost predicate LandsBefore(t: real) {
      landing(t) == 0 || (landing(t) < |frames| && frames[landing(t)] <= t)
    }

    ghost predicate GoodStream() {
      NonDecreasing(frames) && forall t: real :: LandsBefore(t)
    }

    /** The window holds the last one or two frames read since the seek. */
    ghost predicate Valid()
      reads this
    {
      && GoodStream()
      && cursor <= |frames| && cursor == landedAt + framesSinceSeek
      && (haveCurrent ==> 0 < cursor && currentTimestamp == frames[cursor - 1])
      && (havePrevious && haveCurrent ==> 1 < cursor && previousTimestamp == frames[cursor - 2])
      && (havePrevious && !haveCurrent ==> 0 < cursor && previousTimestamp == frames[cursor - 1])
      && (decoderEof == (havePrevious && !haveCurrent)) && (decoderEof ==> cursor == |frames|)
      && (frames != [] ==> Oldest() < |frames| && (Oldest() == 0 || frames[Oldest()] <= highest))
    }

    /** Index of the oldest frame the window can still select. */
    ghost function Oldest(): int
      reads this
    {
      cursor - (if haveCurrent then 1 else 0) - (if havePrevious then 1 else 0)
    }

    ghost predicate CursorInv()
      reads this
    {
      && haveBuffer && haveClusterStart
      && Decodable(buffer, cuts)
      && clusterPosition <= |buffer.clusters|
      && (clusterPosition < |buffer.clusters| ==> targetPosition <= |buffer.clusters[clusterPosition]|)
    }

    /** How many targets of the buffer have been yielded. */
    ghost function Emitted(): nat
      reads this
      requires CursorInv()
    {
      if clusterPosition < |buffer.clusters| then cuts[clusterPosition] + targetPosition else |buffer.targets|
    }

    ghost predicate AtTarget()
      reads this
    {
      && CursorInv() && clusterPosition < |buffer.clusters|
      && targetPosition < |buffer.clusters[clusterPosition]|
    }

    lemma TargetAtCursor()
      requires AtTarget()
      ensures Emitted() < |buffer.targets| && InPart(cuts, clusterPosition, Emitted())
      ensures buffer.clusters[clusterPosition][targetPosition] == Emitted()
    {
      assert IsPart(buffer.clusters, cuts, clusterPosition);
      CutsAreBounded(cuts, |buffer.targets|, clusterPosition + 1);
    }

    // Plans: from where, and within which budget, a target is decoded

    ghost function CurrentPlan(): (plan: Plan)
      reads this
      requires Valid()
      ensures Usable(frames, plan)
    {
      Plan(Oldest(), cursor, landedAt, frameBudget)
    }

    /** The plan of a cluster that is begun by seeking. */
    ghost function FreshPlan(b: DecodeBuffer, bCuts: seq<nat>, k: nat): (plan: Plan)
      requires GoodStream() && HasCluster(b, bCuts, k)
      ensures Usable(frames, plan)
      ensures frames != [] ==> plan.from == 0 || frames[plan.from] <= b.targets[bCuts[k]].videoTimestamp
    {
      assert LandsBefore(b.targets[bCuts[k]].videoTimestamp);
      var earliest, latest := b.targets[bCuts[k]].videoTimestamp, b.targets[bCuts[k + 1] - 1].videoTimestamp;
      Landed(landing(earliest), DecodeFrameBudget(earliest, latest, fps))
    }

    ghost predicate HasCluster(b: DecodeBuffer, bCuts: seq<nat>, k: nat) {
      k + 1 < |bCuts| && bCuts[k] < bCuts[k + 1] <= |b.targets|
    }

    lemma Clusters(b: DecodeBuffer, bCuts: seq<nat>, k: nat)
      requires Decodable(b, bCuts) && k < |b.clusters|
      ensures HasCluster(b, bCuts, k)
      ensures |b.clusters[k]| == bCuts[k + 1] - bCuts[k] > 0
      ensures b.clusters[k][0] == bCuts[k] && b.clusters[k][|b.clusters[k]| - 1] == bCuts[k + 1] - 1
    {
      assert IsPart(b.clusters, bCuts, k) && Rises(bCuts, k);
      CutsAreBounded(bCuts, |b.targets|, k + 1);
    }

    /** The plan of the k-th cluster of a buffer that is begun in this state. */
    ghost function PlanOf(next: DecodeBuffer, nextCuts: seq<nat>, k: nat): (plan: Plan)
      reads this
      requires Valid() && StartsWithTargets(next) && HasCluster(next, nextCuts, k)
      ensures Usable(frames, plan)
    {
      if k == 0 && Continues(next) then
        var latest := next.targets[nextCuts[1] - 1].videoTimestamp;
        Plan(Oldest(), cursor, landedAt, DecodeFrameBudget(clusterStartTimestamp, latest, fps))
      else FreshPlan(next, nextCuts, k)
    }

    /** The plan of the next target to be yielded. */
    ghost function NextPlan(): (plan: Plan)
      reads this
      requires Valid() && CursorInv()
      requires HasNextPlan()
      ensures Usable(frames, plan)
    {
      if AtTarget() then CurrentPlan() else FreshPlan(buffer, cuts, clusterPosition + 1)
    }

    lemma HasNext()
      requires CursorInv() && Emitted() < |buffer.targets|
      ensures HasNextPlan() && clusterPosition < |buffer.clusters|
      ensures !AtTarget() ==> clusterPosition + 1 < |buffer.clusters| && Emitted() == cuts[clusterPosition + 1]
    {
      assert IsPart(buffer.clusters, cuts, clusterPosition);
      if !AtTarget() {
        Clusters(buffer, cuts, clusterPosition + 1);
      }
    }

    constructor (shardIndex: nat, frames: seq<real>, landing: real -> nat, tolerance: real, clusterGap: real, fps: Fps)
      requires NonDecreasing(frames)
      requires forall t: real {:trigger landing(t)} ::
                 landing(t) == 0 || (landing(t) < |frames| && frames[landing(t)] <= t)
      ensures Valid() && !haveBuffer && !haveLastTarget
      ensures this.shardIndex == shardIndex && this.frames == frames && this.landing == landing
      ensures this.tolerance == tolerance && this.clusterGap == clusterGap && this.fps == fps
    {
      this.shardIndex, this.frames, this.landing := shardIndex, frames, landing;
      this.tolerance, this.clusterGap, this.fps := tolerance, clusterGap, fps;
      haveBuffer, buffer, cuts := false, DecodeBuffer(0, [], []), [];
      clusterPosition, targetPosition, cursor, landedAt := 0, 0, 0, 0;
      havePrevious, haveCurrent, decoderEof := false, false, false;
      previousTimestamp, currentTimestamp, highest := 0.0, 0.0, 0.0;
      framesSinceSeek, frameBudget := 0, 0;
      haveLastTarget, lastTargetTimestamp := false, 0.0;
      haveClusterStart, clusterStartTimestamp := false, 0.0;
    }

    /** Seek to the first target of the cluster and empty the window. */
    method StartCluster()
      requires GoodStream() && haveBuffer && Decodable(buffer, cuts) && clusterPosition < |buffer.clusters|
      modifies this
      ensures unchanged(`buffer, `haveBuffer, `cuts, `clusterPosition, `haveLastTarget, `lastTargetTimestamp)
      ensures Valid() && AtTarget() && targetPosition == 0
      ensures Emitted() < |buffer.targets| && HasCluster(buffer, cuts, clusterPosition)
      ensures CurrentPlan() == FreshPlan(buffer, cuts, clusterPosition)
      ensures highest == clusterStartTimestamp == buffer.targets[Emitted()].videoTimestamp
    {
      Clusters(buffer, cuts, clusterPosition);
      var cluster := buffer.clusters[clusterPosition];
      var earliest := buffer.targets[cluster[0]].videoTimestamp;
      var latest := buffer.targets[cluster[|cluster| - 1]].videoTimestamp;
      targetPosition := 0;
      decoderEof, havePrevious, haveCurrent := false, false, false;
      framesSinceSeek := 0;
      clusterStartTimestamp, haveClusterStart := earliest, true;
      frameBudget := DecodeFrameBudget(earliest, latest, fps);
      assert LandsBefore(earliest);
      cursor := landing(earliest);
      landedAt, highest := cursor, earliest;
    }

    /** May decoding go on from where the last buffer left off, without a seek? */
    predicate Continues(next: DecodeBuffer)
      reads this
      requires StartsWithTargets(next)
    {
      var earliest := next.targets[next.clusters[0][0]].videoTimestamp;
      var latest := next.targets[next.clusters[0][|next.clusters[0]| - 1]].videoTimestamp;
      && haveLastTarget && haveClusterStart && !decoderEof
      && earliest + TIMESTAMP_SLACK >= lastTargetTimestamp
      && earliest - lastTargetTimestamp <= clusterGap
      && EstimateFrameSpan(clusterStartTimestamp, latest, fps) <= MAX_CLUSTER_FRAME_SPAN
    }

    /** When no seek is made, in numbers: the last target is at most a nanosecond after the first one of the buffer and
        at most the cluster gap before it, the stream has not ended, and its first cluster ends less than 20000 frames
        after the seek. */
    lemma ContinuesInNumbers(next: DecodeBuffer, nextCuts: seq<nat>)
      requires Decodable(next, nextCuts) && StartsWithTargets(next) && HasCluster(next, nextCuts, 0)
      ensures var first, last := next.targets[0].videoTimestamp, next.targets[nextCuts[1] - 1].videoTimestamp;
              Continues(next) <==>
              && haveLastTarget && haveClusterStart && !decoderEof
              && first >= lastTargetTimestamp - 0.000000001 && first <= lastTargetTimestamp + clusterGap
              && (last <= clusterStartTimestamp || (last - clusterStartTimestamp) * fps as real <= 19999.0)
    {
      Clusters(next, nextCuts, 0);
      var last := next.targets[nextCuts[1] - 1].videoTimestamp;
      if clusterStartTimestamp <= last {
        SpanLimitInNumbers(clusterStartTimestamp, last, fps);
      }
    }

    /** Take up a buffer, keeping the window with a budget up to the end of its first cluster or seeking. */
    method TakeUp(next: DecodeBuffer, ghost nextCuts: seq<nat>, continues: bool, latest: real, ghost first: Plan)
      requires Valid() && Decodable(next, nextCuts) && next.clusters != [] && HasCluster(next, nextCuts, 0)
      requires continues ==> haveClusterStart
      requires first == if continues then CurrentPlan().(budget := DecodeFrameBudget(clusterStartTimestamp, latest, fps))
                        else FreshPlan(next, nextCuts, 0)
      modifies this
      ensures unchanged(`haveLastTarget, `lastTargetTimestamp)
      ensures buffer == next && cuts == nextCuts && Valid() && AtTarget() && Emitted() == clusterPosition == 0
      ensures CurrentPlan() == first
      ensures if continues then unchanged(`clusterStartTimestamp, `highest)
              else clusterStartTimestamp == highest == next.targets[0].videoTimestamp
    {
      buffer, cuts, haveBuffer := next, nextCuts, true;
      clusterPosition, targetPosition := 0, 0;
      if continues {
        frameBudget := DecodeFrameBudget(clusterStartTimestamp, latest, fps);
        Clusters(next, nextCuts, 0);
      } else {
        StartCluster();
      }
    }

    /** Start on a buffer, reusing the window when its first target follows closely on the last one. */
    method BeginBuffer(next: DecodeBuffer, ghost nextCuts: seq<nat>) returns (ok: bool)
      requires Valid()
      requires next.targets != [] ==> Decodable(next, nextCuts)
      modifies this
      ensures ok == (next.shardIndex == shardIndex && next.targets != [] && next.clusters != [])
      ensures unchanged(`haveLastTarget, `lastTargetTimestamp)
      ensures ok ==> buffer == next && cuts == nextCuts && Valid() && AtTarget() && Emitted() == clusterPosition == 0
      ensures ok ==> StartsWithTargets(next) && HasCluster(next, nextCuts, 0)
                     && CurrentPlan() == old(PlanOf(next, nextCuts, 0))
      ensures ok ==> if old(Continues(next)) then unchanged(`clusterStartTimestamp, `highest)
                     else clusterStartTimestamp == highest == next.targets[0].videoTimestamp
    {
      if next.shardIndex != shardIndex || next.targets == [] || next.clusters == [] {
        return false;
      }
      DecodableStarts(next, nextCuts);
      Clusters(next, nextCuts, 0);
      var latest := next.targets[next.clusters[0][|next.clusters[0]| - 1]].videoTimestamp;
      TakeUp(next, nextCuts, Continues(next), latest, PlanOf(next, nextCuts, 0));
      ok := true;
    }

    /** The codec's next frame; `exceeded` reports that more frames than budgeted were read since the seek. */
    method ReadFrame() returns (read: bool, exceeded: bool)
      requires cursor <= |frames|
      modifies this`cursor, this`currentTimestamp, this`framesSinceSeek
      ensures read == (old(cursor) < |frames|)
      ensures read ==> cursor == old(cursor) + 1 && currentTimestamp == frames[old(cursor)]
                       && framesSinceSeek == old(framesSinceSeek) + 1
      ensures !read ==> unchanged(this)
      ensures exceeded == (read && framesSinceSeek > frameBudget)
    {
      read, exceeded := cursor < |frames|, false;
      if read {
        currentTimestamp := frames[cursor];
        cursor := cursor + 1;
        framesSinceSeek := framesSinceSeek + 1;
        exceeded := framesSinceSeek > frameBudget;
      }
    }

    method ShiftWindow()
      modifies this`previousTimestamp, this`havePrevious, this`haveCurrent
      ensures old(haveCurrent) ==> havePrevious && !haveCurrent && previousTimestamp == old(currentTimestamp)
      ensures !old(haveCurrent) ==> unchanged(this)
    {
      if haveCurrent {
        previousTimestamp := currentTimestamp;
        havePrevious, haveCurrent := true, false;
      }
    }

    /** The current frame is at or past t: the nearer of the window's frames, the earlier one on a tie. */
    method SelectFromWindow(t: real) returns (selected: real)
      requires Valid() && haveCurrent && t <= currentTimestamp
      ensures selected == Selected(frames, Oldest(), t)
      ensures After(frames, CurrentPlan(), t) == CurrentPlan() && !OverBudget(frames, CurrentPlan(), t)
    {
      selected := currentTimestamp;
      if havePrevious && Distance(previousTimestamp, t) <= Distance(currentTimestamp, t) {
        selected := previousTimestamp;
      }
      Pairs(frames);
      FirstAtIs(frames, Oldest(), t, if havePrevious && previousTimestamp < t then cursor - 1 else Oldest());
    }

    /** One pass for target time t: settle the target, or read one more frame on the way to it. */
    method TryTarget(target: nat, t: real, ghost plan: Plan) returns (r: NextResult)
      requires Valid() && plan == CurrentPlan() && t <= highest
      modifies this`cursor, this`havePrevious, this`haveCurrent, this`decoderEof, this`previousTimestamp,
               this`currentTimestamp, this`framesSinceSeek
      ensures !r.Exhausted? ==> r == Decoded(frames, plan, target, t, tolerance)
      ensures !r.Failed? ==> Valid() && frames != []
      ensures r.Frame? ==> CurrentPlan() == After(frames, plan, t)
      ensures r.Exhausted? ==> cursor == old(cursor) + 1
                               && SamePlan(frames, plan, CurrentPlan(), target, t, tolerance)
    {
      if haveCurrent && t <= currentTimestamp {
        var selected := SelectFromWindow(t);
        return Accepted(target, t, selected, tolerance);
      }
      r := ReadOn(target, t, plan);
    }

    /** The window does not reach t: read one more frame, or settle the target at the end of the stream. */
    method ReadOn(target: nat, t: real, ghost plan: Plan) returns (r: NextResult)
      requires Valid() && plan == CurrentPlan() && t <= highest && !(haveCurrent && t <= currentTimestamp)
      modifies this`cursor, this`havePrevious, this`haveCurrent, this`decoderEof, this`previousTimestamp,
               this`currentTimestamp, this`framesSinceSeek
      ensures !r.Exhausted? ==> r == Decoded(frames, plan, target, t, tolerance)
      ensures !r.Failed? ==> Valid() && frames != []
      ensures r.Frame? ==> CurrentPlan() == After(frames, plan, t)
      ensures r.Exhausted? ==> cursor == old(cursor) + 1
                               && SamePlan(frames, plan, CurrentPlan(), target, t, tolerance)
    {
      NotInWindow(t);
      var read, exceeded := Advance();
      if exceeded {
        OneTooMany(frames, plan, target, t, tolerance);
        return Failed(BudgetExceeded);
      }
      if read {
        OneMoreFrame(frames, plan, Oldest(), target, t, tolerance);
        return Exhausted;
      }
      if !havePrevious {
        return Failed(NoFrames);
      }
      EndOfStream(frames, plan, Oldest(), t);
      r := Accepted(target, t, previousTimestamp, tolerance);
    }

    /** Shift the window and read a frame into it; at the end of the stream the last frame alone stays. */
    method Advance() returns (read: bool, exceeded: bool)
      requires Valid() && (haveCurrent ==> currentTimestamp <= highest)
      modifies this`cursor, this`havePrevious, this`haveCurrent, this`decoderEof, this`previousTimestamp,
               this`currentTimestamp, this`framesSinceSeek
      ensures read == (old(cursor) < |frames|) && exceeded == (read && old(cursor) + 1 - landedAt > frameBudget)
      ensures read && !exceeded ==>
                Valid() && CurrentPlan() == old(CurrentPlan()).(from := old(OldestShifted()), read := old(cursor) + 1)
      ensures !read ==> havePrevious == (frames != [])
      ensures !read && havePrevious ==>
                && Valid() && CurrentPlan() == old(CurrentPlan()).(from := |frames| - 1)
                && old(CurrentPlan()).from <= |frames| - 1 && previousTimestamp == frames[|frames| - 1]
    {
      ShiftWindow();
      read, exceeded := false, false;
      if !decoderEof {
        read, exceeded := ReadFrame();
      }
      if read {
        haveCurrent := true;
      } else {
        decoderEof := true;
      }
    }

    ghost function OldestShifted(): nat
      reads this
      requires Valid()
    {
      if haveCurrent then cursor - 1 else cursor - (if havePrevious then 1 else 0)
    }

    /** All frames read lie before t, save a single last one of the stream. */
    lemma NotInWindow(t: real)
      requires Valid() && !(haveCurrent && t <= currentTimestamp)
      ensures Oldest() <= cursor
      ensures FirstAt(frames, Oldest(), t) >= cursor || (decoderEof && FirstAt(frames, Oldest(), t) == Oldest())
    {
      Pairs(frames);
    }

    /** Go on to the next cluster, seeking to its first target. */
    method NextCluster() returns (more: bool)
      requires Valid() && CursorInv() && clusterPosition < |buffer.clusters|
      requires targetPosition == |buffer.clusters[clusterPosition]|
      modifies this
      ensures unchanged(`buffer, `haveBuffer, `cuts, `haveLastTarget, `lastTargetTimestamp)
      ensures Valid() && CursorInv() && Emitted() == old(Emitted()) && clusterPosition == old(clusterPosition) + 1
      ensures more == (clusterPosition < |buffer.clusters|)
      ensures more ==> AtTarget() && HasCluster(buffer, cuts, clusterPosition) && Emitted() < |buffer.targets|
                       && CurrentPlan() == FreshPlan(buffer, cuts, clusterPosition)
                       && highest == clusterStartTimestamp == buffer.targets[Emitted()].videoTimestamp
      ensures !more ==> Emitted() == |buffer.targets|
      ensures !more ==> CurrentPlan() == old(CurrentPlan()) && unchanged(`clusterStartTimestamp, `highest, `decoderEof)
    {
      assert IsPart(buffer.clusters, cuts, clusterPosition);
      clusterPosition := clusterPosition + 1;
      more := clusterPosition < |buffer.clusters|;
      if more {
        StartCluster();
      }
    }

    /** One pass of the loop at a target, number `emitted` at time t. */
    method Attempt(ghost emitted: nat, ghost t: real, ghost plan: Plan) returns (r: NextResult)
      requires Valid() && plan == CurrentPlan() && AtTarget()
      requires emitted == Emitted() < |buffer.targets| && t == buffer.targets[emitted].videoTimestamp <= highest
      modifies this`targetPosition, this`haveLastTarget, this`lastTargetTimestamp, this`cursor, this`havePrevious,
               this`haveCurrent, this`decoderEof, this`previousTimestamp, this`currentTimestamp, this`framesSinceSeek
      ensures CursorInv() && (!r.Failed? ==> Valid())
      ensures !r.Exhausted? ==> r == Decoded(frames, plan, emitted, t, tolerance)
      ensures r.Frame? ==> Stepped(emitted, clusterPosition, plan)
      ensures r.Exhausted? ==> AtTarget() && Emitted() == emitted && cursor == old(cursor) + 1
                               && unchanged(`targetPosition, `haveLastTarget, `lastTargetTimestamp)
                               && SamePlan(frames, plan, CurrentPlan(), emitted, t, tolerance)
    {
      TargetAtCursor();
      var target := buffer.clusters[clusterPosition][targetPosition];
      var time := buffer.targets[target].videoTimestamp;
      r := TryTarget(target, time, plan);
      CursorKept();
      if r.Frame? {
        StepPast(emitted, time, CurrentPlan());
      }
    }

    method TryNext(ghost emitted: nat, ghost t: real, ghost plan: Plan) returns (r: NextResult)
      requires Valid() && plan == CurrentPlan() && AtTarget()
      requires emitted == Emitted() < |buffer.targets| && t == buffer.targets[emitted].videoTimestamp
      modifies this
      ensures unchanged(`buffer, `haveBuffer, `cuts, `clusterPosition, `clusterStartTimestamp)
      ensures CursorInv() && (!r.Failed? ==> Valid()) && highest == Later(old(highest), t)
      ensures !r.Exhausted? ==> r == Decoded(frames, plan, emitted, t, tolerance)
      ensures r.Frame? ==> Stepped(emitted, clusterPosition, plan)
      ensures r.Exhausted? ==> AtTarget() && Emitted() == emitted && cursor == old(cursor) + 1
                               && unchanged(`targetPosition, `haveLastTarget, `lastTargetTimestamp)
                               && SamePlan(frames, plan, CurrentPlan(), emitted, t, tolerance)
    {
      RaiseHighest(t);
      r := Attempt(emitted, t, plan);
    }

    ghost method RaiseHighest(t: real)
      requires Valid() && AtTarget()
      modifies this`highest
      ensures Valid() && AtTarget() && Emitted() == old(Emitted()) && CurrentPlan() == old(CurrentPlan())
      ensures highest == Later(old(highest), t)
    {
      highest := Later(highest, t);
      PlanKept();
      CursorKept();
    }

    /** A target has been yielded: remember it and step past it. */
    method StepPast(ghost emitted: nat, time: real, ghost plan: Plan)
      requires Valid() && AtTarget() && Emitted() == emitted < |buffer.targets| && plan == CurrentPlan()
      modifies this`targetPosition, this`haveLastTarget, this`lastTargetTimestamp
      ensures Valid() && CursorInv() && Emitted() == emitted + 1 && targetPosition > 0 && CurrentPlan() == plan
      ensures haveLastTarget && lastTargetTimestamp == time
    {
      targetPosition := targetPosition + 1;
      haveLastTarget, lastTargetTimestamp := true, time;
      PlanKept();
    }

    twostate lemma PlanKept()
      requires old(Valid()) && old(highest) <= highest
      requires unchanged(`cursor, `havePrevious, `haveCurrent, `decoderEof, `previousTimestamp, `currentTimestamp)
      requires unchanged(`framesSinceSeek, `frameBudget, `landedAt)
      ensures Valid() && CurrentPlan() == old(CurrentPlan())
    {
    }

    twostate lemma CursorKept()
      requires old(AtTarget())
      requires unchanged(`buffer, `haveBuffer, `haveClusterStart, `cuts, `clusterPosition, `targetPosition)
      ensures AtTarget() && Emitted() == old(Emitted())
    {
    }

    /** The next target of the buffer: yielded with the frame its plan selects, or refused for the reason its plan
        gives; the end after the last target. */
    method Next(ghost emitted: nat, ghost t: real, ghost plan: Plan) returns (r: NextResult)
      requires Valid() && CursorInv() && emitted == Emitted()
      requires emitted < |buffer.targets| ==>
                 HasNextPlan() && plan == NextPlan() && Usable(frames, plan) && t == buffer.targets[emitted].videoTimestamp
      modifies this
      ensures unchanged(`buffer, `haveBuffer, `cuts)
      ensures CursorInv() && (!r.Failed? ==> Valid())
      ensures emitted == |buffer.targets| <==> r.Exhausted?
      ensures r.Exhausted? ==> Emitted() == emitted && CurrentPlan() == old(CurrentPlan())
                               && unchanged(`clusterStartTimestamp, `highest, `haveLastTarget, `lastTargetTimestamp)
      ensures !r.Exhausted? ==> emitted < |buffer.targets| && r == Decoded(frames, plan, emitted, t, tolerance)
      ensures r.Frame? ==> Stepped(emitted, old(NextPosition()), plan)
      ensures r.Frame? ==> if old(AtTarget()) then unchanged(`clusterStartTimestamp) && highest == Later(old(highest), t)
                           else clusterStartTimestamp == highest == t
    {
      while clusterPosition < |buffer.clusters|
        invariant unchanged(`buffer, `haveBuffer, `cuts, `haveLastTarget, `lastTargetTimestamp)
        invariant Valid() && CursorInv() && Emitted() == emitted
        invariant emitted == |buffer.targets| ==>
                    CurrentPlan() == old(CurrentPlan()) && unchanged(`clusterStartTimestamp, `highest)
        invariant emitted < |buffer.targets| ==> HasNextPlan() && NextPosition() == old(NextPosition())
        invariant emitted < |buffer.targets| ==> SamePlan(frames, plan, NextPlan(), emitted, t, tolerance)
        invariant if old(AtTarget()) then AtTarget() && unchanged(`clusterStartTimestamp)
                                          && Later(highest, t) == Later(old(highest), t)
                  else AtTarget() ==> clusterStartTimestamp == highest == t
        decreases |buffer.clusters| - clusterPosition, |frames| - cursor
      {
        if targetPosition >= |buffer.clusters[clusterPosition]| {
          var more := NextCluster();
          if !more {
            return Exhausted;
          }
          continue;
        }
        TargetAtCursor();
        r := TryNext(emitted, t, CurrentPlan());
        if !r.Exhausted? {
          return;
        }
      }
      r := Exhausted;
    }

    /** The cluster of the next target. */
    ghost function NextPosition(): nat
      reads this
    {
      if AtTarget() then clusterPosition else clusterPosition + 1
    }

    ghost predicate HasNextPlan()
      reads this
    {
      CursorInv() && Emitted() < |buffer.targets| && (AtTarget() || HasCluster(buffer, cuts, clusterPosition + 1))
    }

    /** The state after target `emitted` of the cluster at `position`, decoded as planned. */
    ghost predicate Stepped(emitted: nat, position: nat, plan: Plan)
      reads this
      requires Valid() && CursorInv()
    {
      && emitted < |buffer.targets| && plan.from < |frames|
      && Emitted() == emitted + 1 && targetPosition > 0 && clusterPosition == position < |buffer.clusters|
      && CurrentPlan() == After(frames, plan, buffer.targets[emitted].videoTimestamp)
      && haveLastTarget && lastTargetTimestamp == buffer.targets[emitted].videoTimestamp
    }

    // A whole buffer

    /** The plans of all clusters: every one but the first is begun by seeking. */
    ghost predicate ArePlans(plans: seq<Plan>, first: Plan, b: DecodeBuffer, bCuts: seq<nat>) {
      && GoodStream() && Decodable(b, bCuts)
      && |plans| == |b.clusters| > 0 && plans[0] == first && Usable(frames, first)
      && forall k: nat :: 0 < k < |plans| ==> IsFresh(plans, b, bCuts, k)
    }

    ghost predicate Planned(plans: seq<Plan>, b: DecodeBuffer, bCuts: seq<nat>) {
      exists first :: ArePlans(plans, first, b, bCuts)
    }

    ghost predicate IsFresh(plans: seq<Plan>, b: DecodeBuffer, bCuts: seq<nat>, k: nat) {
      GoodStream() && k < |plans| && HasCluster(b, bCuts, k) && plans[k] == FreshPlan(b, bCuts, k)
    }

    lemma PlansExist(first: Plan, b: DecodeBuffer, bCuts: seq<nat>) returns (plans: seq<Plan>)
      requires GoodStream() && Decodable(b, bCuts) && Usable(frames, first)
      ensures ArePlans(plans, first, b, bCuts)
    {
      DecodableStarts(b, bCuts);
      forall k: nat | k < |b.clusters| ensures HasCluster(b, bCuts, k) {
        Clusters(b, bCuts, k);
      }
      plans := seq(|b.clusters|, k requires 0 <= k < |b.clusters| => if k == 0 then first else FreshPlan(b, bCuts, k));
    }

    /** Target i, of cluster k, comes to r as the plan of its cluster has it. */
    ghost predicate ComesTo(b: DecodeBuffer, plans: seq<Plan>, k: nat, i: nat, r: NextResult) {
      && k < |plans| && i < |b.targets| && Usable(frames, plans[k])
      && r == Decoded(frames, plans[k], i, b.targets[i].videoTimestamp, tolerance)
    }

    /** The state between two targets of the buffer, the next one being target e. */
    ghost predicate Between(bCuts: seq<nat>, plans: seq<Plan>, peak: real, start: real, e: nat)
      reads this
    {
      exists k: nat :: BetweenIn(bCuts, plans, peak, start, e, k)
    }

    /** ... while decoding cluster k. */
    ghost predicate BetweenIn(bCuts: seq<nat>, plans: seq<Plan>, peak: real, start: real, e: nat, k: nat)
      reads this
    {
      && Valid() && CursorInv() && cuts == bCuts && Emitted() == e <= |buffer.targets|
      && clusterPosition == k < |buffer.clusters| == |plans| && Usable(frames, plans[k])
      && HighestIs(peak, e) && (k == 0 ==> clusterStartTimestamp == start)
      && if e == 0 then AtTarget() && k == 0 && CurrentPlan() == plans[0]
         else
           && InPart(cuts, k, e - 1) && frames != []
           && Decoded(frames, plans[k], e - 1, buffer.targets[e - 1].videoTimestamp, tolerance).Frame?
           && CurrentPlan() == After(frames, plans[k], buffer.targets[e - 1].videoTimestamp)
           && haveLastTarget && lastTargetTimestamp == buffer.targets[e - 1].videoTimestamp
    }

    ghost predicate HighestIs(peak: real, e: nat)
      reads this
    {
      e <= |buffer.targets| &&
      highest == if e == 0 then peak
                 else if clusterPosition == 0 then Later(peak, buffer.targets[e - 1].videoTimestamp)
                 else buffer.targets[e - 1].videoTimestamp
    }

    /** The plan of the next target leads to the same outcome as the plan of its cluster. */
    lemma PlanFollows(bCuts: seq<nat>, plans: seq<Plan>, peak: real, start: real, e: nat, t: real)
      requires Between(bCuts, plans, peak, start, e) && e < |buffer.targets| && t == buffer.targets[e].videoTimestamp
      requires Planned(plans, buffer, bCuts)
      ensures HasNextPlan() && NextPosition() < |plans| && Usable(frames, NextPlan())
      ensures InPart(cuts, NextPosition(), e)
      ensures SamePlan(frames, NextPlan(), plans[NextPosition()], e, t, tolerance)
    {
      HasNext();
      if !AtTarget() {
        assert IsFresh(plans, buffer, bCuts, clusterPosition + 1);
      } else {
        TargetAtCursor();
        if e > 0 {
          assert NotLater(buffer.targets, e - 1, e);
          DecodedLater(frames, plans[clusterPosition], e, buffer.targets[e - 1].videoTimestamp, t, tolerance, e - 1);
        }
      }
    }

    /** Take one target. */
    method TakeNext(ghost bCuts: seq<nat>, ghost plans: seq<Plan>, ghost peak: real, ghost start: real, ghost e: nat) returns (r: NextResult)
      requires Between(bCuts, plans, peak, start, e) && Planned(plans, buffer, bCuts)
      modifies this
      ensures buffer == old(buffer)
      ensures r.Exhausted? <==> e == |buffer.targets|
      ensures r.Exhausted? ==> Valid() && haveClusterStart && CurrentPlan() == old(CurrentPlan())
                               && unchanged(`clusterStartTimestamp, `highest, `haveLastTarget, `lastTargetTimestamp)
      ensures !r.Exhausted? ==> e < |buffer.targets| && exists k: nat :: InPart(bCuts, k, e) && ComesTo(buffer, plans, k, e, r)
      ensures r.Frame? ==> Between(bCuts, plans, peak, start, e + 1)
    {
      ghost var t, plan, k := 0.0, Landed(0, 0), 0;
      Ascends(e);
      if e < |buffer.targets| {
        t := buffer.targets[e].videoTimestamp;
        PlanFollows(bCuts, plans, peak, start, e, t);
        plan, k := NextPlan(), NextPosition();
      }
      r := Next(e, t, plan);
      assert !r.Exhausted? ==> ComesTo(buffer, plans, k, e, r);
      assert r.Frame? ==> BetweenIn(bCuts, plans, peak, start, e + 1, k);
    }

    /** Target i is yielded with this timestamp, as the plan of its cluster has it: a nearest frame among those that
        can still be selected, and nearest of all exactly when the plan reaches back far enough. */
    ghost predicate Yielded(b: DecodeBuffer, bCuts: seq<nat>, plans: seq<Plan>, i: nat, timestamp: real) {
      exists k: nat :: InPart(bCuts, k, i) && ComesTo(b, plans, k, i, Frame(i, timestamp)) && NearestAsPlanned(b, plans, k, i, timestamp)
    }

    ghost predicate NearestAsPlanned(b: DecodeBuffer, plans: seq<Plan>, k: nat, i: nat, timestamp: real) {
      && k < |plans| && i < |b.targets| && plans[k].from < |frames|
      && IsNearestFrom(frames, plans[k].from, b.targets[i].videoTimestamp, timestamp)
      && Distance(b.targets[i].videoTimestamp, timestamp) <= tolerance
      && (IsNearest(frames, b.targets[i].videoTimestamp, timestamp) <==> Reaches(frames, plans[k].from, b.targets[i].videoTimestamp))
    }

    ghost predicate Refused(b: DecodeBuffer, bCuts: seq<nat>, plans: seq<Plan>, i: nat, failure: NextResult) {
      failure.Failed? && exists k: nat :: InPart(bCuts, k, i) && ComesTo(b, plans, k, i, failure)
    }

    /** Cluster k needs no more frames than its budget, and each of its targets has a frame within the tolerance. */
    ghost predicate DecodesCluster(b: DecodeBuffer, bCuts: seq<nat>, plans: seq<Plan>, k: nat) {
      && k < |plans| && Usable(frames, plans[k]) && HasCluster(b, bCuts, k)
      && !OverBudget(frames, plans[k], b.targets[bCuts[k + 1] - 1].videoTimestamp)
      && forall i: nat :: InPart(bCuts, k, i) ==> HasFrame(b, plans, k, i)
    }

    ghost predicate HasFrame(b: DecodeBuffer, plans: seq<Plan>, k: nat, i: nat) {
      k < |plans| && i < |b.targets| && !AllOutOf(frames, plans[k].from, b.targets[i].videoTimestamp, tolerance)
    }

    /** In numbers: from the seek on, at most 20001 frames more have to be read than follow the start up to the last
        target of cluster k, if any have to be read at all. */
    ghost predicate InReach(b: DecodeBuffer, bCuts: seq<nat>, plans: seq<Plan>, k: nat, start: real) {
      && k < |plans| && HasCluster(b, bCuts, k) && plans[k].from <= |frames|
      && var last := b.targets[bCuts[k + 1] - 1].videoTimestamp;
         var needed := ReadUpTo(frames, plans[k].from, last);
         forall c: nat :: FramesBetween(c, start, last, fps) && plans[k].read < needed ==> needed <= plans[k].landed + c + 20001
    }

    /** When decoding of cluster k started from its seek. */
    function StartOf(b: DecodeBuffer, bCuts: seq<nat>, k: nat, first: real): real {
      if k == 0 || k >= |bCuts| || bCuts[k] >= |b.targets| then first else b.targets[bCuts[k]].videoTimestamp
    }

    /** The clusters are in reach and every target has a selectable frame within the tolerance. */
    ghost predicate DecodesInNumbers(b: DecodeBuffer, bCuts: seq<nat>, plans: seq<Plan>, first: real) {
      && frames != []
      && forall k: nat :: k < |plans| ==>
           InReach(b, bCuts, plans, k, StartOf(b, bCuts, k, first)) && forall i: nat :: InPart(bCuts, k, i) ==> HasFrame(b, plans, k, i)
    }

    lemma ReachIsBudget(b: DecodeBuffer, bCuts: seq<nat>, plans: seq<Plan>, k: nat, start: real)
      requires |frames| <= 0xFFFF_FFFF_FFFF_FFFF && k < |plans| && HasCluster(b, bCuts, k) && plans[k].from <= |frames|
      requires plans[k].budget == DecodeFrameBudget(start, b.targets[bCuts[k + 1] - 1].videoTimestamp, fps)
      ensures InReach(b, bCuts, plans, k, start) <==> !OverBudget(frames, plans[k], b.targets[bCuts[k + 1] - 1].videoTimestamp)
    {
      var last := b.targets[bCuts[k + 1] - 1].videoTimestamp;
      var needed := ReadUpTo(frames, plans[k].from, last);
      var c := SomeFramesBetween(start, last, fps);
      if needed > plans[k].landed {
        BudgetInNumbers(start, last, fps, c, needed - plans[k].landed);
        forall d: nat | FramesBetween(d, start, last, fps) ensures d == c {
          FramesAreUnique(d, c, start, last, fps);
        }
      }
    }

    lemma DecodesAreNumbers(b: DecodeBuffer, bCuts: seq<nat>, plans: seq<Plan>, first: Plan, start: real)
      requires |frames| <= 0xFFFF_FFFF_FFFF_FFFF && ArePlans(plans, first, b, bCuts) && HasCluster(b, bCuts, 0)
      requires first.budget == DecodeFrameBudget(start, b.targets[bCuts[1] - 1].videoTimestamp, fps)
      ensures DecodesAll(b, bCuts, plans) <==> DecodesInNumbers(b, bCuts, plans, start)
    {
      forall k: nat | k < |plans|
        ensures DecodesCluster(b, bCuts, plans, k) <==>
                InReach(b, bCuts, plans, k, StartOf(b, bCuts, k, start)) && forall i: nat :: InPart(bCuts, k, i) ==> HasFrame(b, plans, k, i)
      {
        if k > 0 {
          assert IsFresh(plans, b, bCuts, k);
        }
        ReachIsBudget(b, bCuts, plans, k, StartOf(b, bCuts, k, start));
      }
    }

    /** A cluster is in reach when the seek to its first target lands at most 20000 frames before the first frame it needs,
        and no more frames follow up to its last target than its frame rate has it. */
    lemma NearSeekIsInReach(b: DecodeBuffer, bCuts: seq<nat>, plans: seq<Plan>, k: nat, c: nat)
      requires IsFresh(plans, b, bCuts, k) && frames != []
      requires var first, last := b.targets[bCuts[k]].videoTimestamp, b.targets[bCuts[k + 1] - 1].videoTimestamp;
               && FramesBetween(c, first, last, fps) && landing(first) <= |frames|
               && FirstAt(frames, landing(first), first) <= landing(first) + 20000
               && FirstAt(frames, landing(first), last) <= FirstAt(frames, landing(first), first) + c
      ensures InReach(b, bCuts, plans, k, b.targets[bCuts[k]].videoTimestamp)
      ensures plans[k].landed == plans[k].from == plans[k].read == landing(b.targets[bCuts[k]].videoTimestamp)
    {
      var first, last := b.targets[bCuts[k]].videoTimestamp, b.targets[bCuts[k + 1] - 1].videoTimestamp;
      forall d: nat | FramesBetween(d, first, last, fps) ensures d == c {
        FramesAreUnique(d, c, first, last, fps);
      }
    }

    ghost predicate DecodesAll(b: DecodeBuffer, bCuts: seq<nat>, plans: seq<Plan>) {
      frames != [] && forall k: nat :: k < |plans| ==> DecodesCluster(b, bCuts, plans, k)
    }

    lemma YieldedAsPlanned(b: DecodeBuffer, bCuts: seq<nat>, plans: seq<Plan>, k: nat, i: nat, r: NextResult)
      requires GoodStream() && InPart(bCuts, k, i) && ComesTo(b, plans, k, i, r) && r.Frame?
      ensures r.target == i && Yielded(b, bCuts, plans, i, r.timestamp)
    {
      DecodedMeans(frames, plans[k], i, b.targets[i].videoTimestamp, tolerance);
      assert NearestAsPlanned(b, plans, k, i, r.timestamp);
    }

    lemma OnePart(bCuts: seq<nat>, n: nat, j: nat, k: nat, i: nat)
      requires Tiles(bCuts, n) && InPart(bCuts, j, i) && InPart(bCuts, k, i)
      ensures j == k
    {
      if j + 1 < k {
        CutsIncrease(bCuts, n, j + 1, k);
      }
      if k + 1 < j {
        CutsIncrease(bCuts, n, k + 1, j);
      }
    }

    /** A target of a cluster that decodes is not refused. */
    lemma RefusedDoesNot(b: DecodeBuffer, bCuts: seq<nat>, plans: seq<Plan>, i: nat, failure: NextResult)
      requires GoodStream() && Decodable(b, bCuts) && |plans| == |b.clusters| && Refused(b, bCuts, plans, i, failure)
      ensures !DecodesAll(b, bCuts, plans)
    {
      var k: nat :| InPart(bCuts, k, i) && ComesTo(b, plans, k, i, failure);
      DecodedMeans(frames, plans[k], i, b.targets[i].videoTimestamp, tolerance);
      if DecodesAll(b, bCuts, plans) {
        assert DecodesCluster(b, bCuts, plans, k) && HasFrame(b, plans, k, i);
        assert NotLater(b.targets, i, bCuts[k + 1] - 1);
        OverBudgetLater(frames, plans[k], b.targets[i].videoTimestamp, b.targets[bCuts[k + 1] - 1].videoTimestamp);
      }
    }

    lemma YieldedDoes(b: DecodeBuffer, bCuts: seq<nat>, plans: seq<Plan>, timestamps: seq<real>)
      requires GoodStream() && Decodable(b, bCuts) && |plans| == |b.clusters| && |timestamps| == |b.targets|
      requires forall i: nat :: i < |timestamps| ==> Yielded(b, bCuts, plans, i, timestamps[i])
      ensures DecodesAll(b, bCuts, plans)
    {
      assert Yielded(b, bCuts, plans, 0, timestamps[0]);
      forall k: nat | k < |plans| ensures DecodesCluster(b, bCuts, plans, k) {
        Clusters(b, bCuts, k);
        forall i: nat | InPart(bCuts, k, i) ensures HasFrame(b, plans, k, i) {
          PlannedFrame(b, bCuts, plans, k, i, timestamps);
        }
        PlannedFrame(b, bCuts, plans, k, bCuts[k + 1] - 1, timestamps);
      }
    }

    lemma PlannedFrame(b: DecodeBuffer, bCuts: seq<nat>, plans: seq<Plan>, k: nat, i: nat, timestamps: seq<real>)
      requires GoodStream() && Decodable(b, bCuts) && |timestamps| == |b.targets| && InPart(bCuts, k, i)
      requires forall i: nat :: i < |timestamps| ==> Yielded(b, bCuts, plans, i, timestamps[i])
      ensures HasFrame(b, plans, k, i) && Usable(frames, plans[k])
      ensures !OverBudget(frames, plans[k], b.targets[i].videoTimestamp)
    {
      CutsAreBounded(bCuts, |b.targets|, k + 1);
      assert Yielded(b, bCuts, plans, i, timestamps[i]);
      var j: nat :| InPart(bCuts, j, i) && ComesTo(b, plans, j, i, Frame(i, timestamps[i]));
      OnePart(bCuts, |b.targets|, j, k, i);
      DecodedMeans(frames, plans[k], i, b.targets[i].videoTimestamp, tolerance);
    }

    /** The first target lies before the latest one since the last seek, yet close enough to the last one to go on. */
    ghost predicate StepsBack(next: DecodeBuffer)
      reads this
      requires StartsWithTargets(next)
    {
      Continues(next) && next.targets[0].videoTimestamp < highest
    }

    /** Going on never misses a nearer frame unless it steps back, nor then if different frames are more than twice
        as far apart as the step back. */
    ghost predicate Safe(next: DecodeBuffer)
      reads this
      requires StartsWithTargets(next)
    {
      StepsBack(next) ==> FartherApartThan(frames, 2.0 * (highest - next.targets[0].videoTimestamp))
    }

    /** Then every plan reaches the targets of its cluster. */
    lemma SafeReaches(next: DecodeBuffer, nextCuts: seq<nat>, plans: seq<Plan>, k: nat, i: nat)
      requires Valid() && Decodable(next, nextCuts) && StartsWithTargets(next) && HasCluster(next, nextCuts, 0) && Safe(next)
      requires ArePlans(plans, PlanOf(next, nextCuts, 0), next, nextCuts)
      requires k < |plans| && InPart(nextCuts, k, i) && i < |next.targets| && frames != []
      ensures Usable(frames, plans[k]) && Reaches(frames, plans[k].from, next.targets[i].videoTimestamp)
    {
      var t := next.targets[i].videoTimestamp;
      assert NotLater(next.targets, 0, i);
      if k == 0 && Continues(next) {
        var first := next.targets[0].videoTimestamp;
        if StepsBack(next) {
          ReachesBack(frames, plans[0].from, highest, first);
          assert forall j :: 0 <= j < plans[0].from && frames[j] + frames[plans[0].from] < 2.0 * first
                             ==> frames[j] + frames[plans[0].from] < 2.0 * t;
        } else {
          ReachesLater(frames, plans[0].from, t);
        }
      } else {
        assert k > 0 ==> IsFresh(plans, next, nextCuts, k);
        assert NotLater(next.targets, nextCuts[k], i);
        ReachesLater(frames, plans[k].from, t);
      }
    }

    ghost predicate AllYielded(b: DecodeBuffer, bCuts: seq<nat>, plans: seq<Plan>, timestamps: seq<real>) {
      forall i: nat :: i < |timestamps| ==> Yielded(b, bCuts, plans, i, timestamps[i])
    }

    ghost predicate IsNearestTo(b: DecodeBuffer, timestamps: seq<real>, i: nat) {
      i < |b.targets| && i < |timestamps| && IsNearest(frames, b.targets[i].videoTimestamp, timestamps[i])
    }

    ghost predicate ReachesTarget(b: DecodeBuffer, plans: seq<Plan>, k: nat, i: nat) {
      && k < |plans| && i < |b.targets| && (frames != [] ==> plans[k].from < |frames|)
      && (frames != [] ==> Reaches(frames, plans[k].from, b.targets[i].videoTimestamp))
    }

    lemma SafeReachesAll(next: DecodeBuffer, nextCuts: seq<nat>, plans: seq<Plan>)
      requires Valid() && Decodable(next, nextCuts) && StartsWithTargets(next) && HasCluster(next, nextCuts, 0) && Safe(next)
      requires ArePlans(plans, PlanOf(next, nextCuts, 0), next, nextCuts)
      ensures forall k: nat, i: nat :: k < |plans| && InPart(nextCuts, k, i) ==> ReachesTarget(next, plans, k, i)
    {
      forall k: nat, i: nat | k < |plans| && InPart(nextCuts, k, i) ensures ReachesTarget(next, plans, k, i) {
        CutsAreBounded(nextCuts, |next.targets|, k + 1);
        assert k > 0 ==> IsFresh(plans, next, nextCuts, k);
        if frames != [] {
          SafeReaches(next, nextCuts, plans, k, i);
        }
      }
    }

    lemma ReachedAreNearest(b: DecodeBuffer, bCuts: seq<nat>, plans: seq<Plan>, timestamps: seq<real>)
      requires AllYielded(b, bCuts, plans, timestamps)
      requires forall k: nat, i: nat :: k < |plans| && InPart(bCuts, k, i) ==> ReachesTarget(b, plans, k, i)
      ensures forall i: nat :: i < |timestamps| ==> IsNearestTo(b, timestamps, i)
    {
      forall i: nat | i < |timestamps| ensures IsNearestTo(b, timestamps, i) {
        assert Yielded(b, bCuts, plans, i, timestamps[i]);
        var k: nat :| InPart(bCuts, k, i) && ComesTo(b, plans, k, i, Frame(i, timestamps[i]))
                      && NearestAsPlanned(b, plans, k, i, timestamps[i]);
        assert ReachesTarget(b, plans, k, i);
      }
    }

    lemma OneMoreYielded(b: DecodeBuffer, bCuts: seq<nat>, plans: seq<Plan>, timestamps: seq<real>, timestamp: real)
      requires AllYielded(b, bCuts, plans, timestamps) && Yielded(b, bCuts, plans, |timestamps|, timestamp)
      ensures AllYielded(b, bCuts, plans, timestamps + [timestamp])
    {
      var more := timestamps + [timestamp];
      forall i: nat | i < |more| ensures Yielded(b, bCuts, plans, i, more[i]) {
        assert i < |timestamps| ==> Yielded(b, bCuts, plans, i, timestamps[i]);
      }
    }

    /** Take every target of a buffer that has been begun. */
    method TakeAll(ghost b: DecodeBuffer, ghost bCuts: seq<nat>, ghost plans: seq<Plan>, ghost peak: real, ghost start: real)
      returns (timestamps: seq<real>, failure: NextResult)
      requires buffer == b && Between(bCuts, plans, peak, start, 0) && Planned(plans, b, bCuts)
      modifies this
      ensures buffer == b && |timestamps| <= |b.targets| && AllYielded(b, bCuts, plans, timestamps)
      ensures if failure.Exhausted? then |timestamps| == |b.targets| else Refused(b, bCuts, plans, |timestamps|, failure)
      ensures failure.Exhausted? ==> Left(b, plans, peak, start)
    {
      timestamps, failure := [], Frame(0, 0.0);
      while failure.Frame?
        invariant buffer == b && |timestamps| <= |b.targets| && AllYielded(b, bCuts, plans, timestamps)
        invariant failure.Frame? ==> Between(bCuts, plans, peak, start, |timestamps|)
        invariant !failure.Frame? ==> Over(b, bCuts, plans, peak, start, |timestamps|, failure)
        decreases |b.targets| - |timestamps|, failure.Frame?
      {
        timestamps, failure := TakeInto(b, bCuts, plans, peak, start, timestamps);
      }
    }

    /** The end of a buffer after n targets: all have been taken, or the next one was refused. */
    ghost predicate Over(b: DecodeBuffer, bCuts: seq<nat>, plans: seq<Plan>, peak: real, start: real, n: nat, failure: NextResult)
      reads this
    {
      if failure.Exhausted? then n == |b.targets| && Left(b, plans, peak, start) else Refused(b, bCuts, plans, n, failure)
    }

    /** Take one more target, if there is one that is not refused. */
    method TakeInto(ghost b: DecodeBuffer, ghost bCuts: seq<nat>, ghost plans: seq<Plan>, ghost peak: real, ghost start: real,
                    timestamps: seq<real>)
      returns (more: seq<real>, r: NextResult)
      requires buffer == b && Between(bCuts, plans, peak, start, |timestamps|) && Planned(plans, b, bCuts)
      requires AllYielded(b, bCuts, plans, timestamps) && |timestamps| <= |b.targets|
      modifies this
      ensures buffer == b && |more| <= |b.targets| && AllYielded(b, bCuts, plans, more)
      ensures |more| == |timestamps| + (if r.Frame? then 1 else 0)
      ensures if r.Frame? then Between(bCuts, plans, peak, start, |more|) else Over(b, bCuts, plans, peak, start, |more|, r)
    {
      more := timestamps;
      r := TakeOne(bCuts, plans, peak, start, |timestamps|);
      if r.Frame? {
        OneMoreYielded(b, bCuts, plans, timestamps, r.timestamp);
        more := timestamps + [r.timestamp];
      }
    }

    /** Take one target, or find that all have been taken. */
    method TakeOne(ghost bCuts: seq<nat>, ghost plans: seq<Plan>, ghost peak: real, ghost start: real, ghost e: nat) returns (r: NextResult)
      requires Between(bCuts, plans, peak, start, e) && Planned(plans, buffer, bCuts)
      modifies this
      ensures buffer == old(buffer)
      ensures r.Exhausted? ==> e == |buffer.targets| && Left(buffer, plans, peak, start)
      ensures r.Failed? ==> e < |buffer.targets| && Refused(buffer, bCuts, plans, e, r)
      ensures r.Frame? ==> e < |buffer.targets| && Yielded(buffer, bCuts, plans, e, r.timestamp)
      ensures r.Frame? ==> Between(bCuts, plans, peak, start, e + 1)
    {
      if e == |buffer.targets| {
        LeavesFrom(bCuts, plans, peak, start);
      }
      r := TakeNext(bCuts, plans, peak, start, e);
      assert r.Exhausted? ==> LeftAt(buffer, plans, peak, start, lastTargetTimestamp);
      if !r.Exhausted? {
        ghost var k: nat :| InPart(bCuts, k, e) && ComesTo(buffer, plans, k, e, r);
        if r.Frame? {
          YieldedAsPlanned(buffer, bCuts, plans, k, e, r);
        }
      }
    }

    lemma Ascends(e: nat)
      requires SortedByTime(buffer.targets)
      ensures 0 < e < |buffer.targets| ==> buffer.targets[e - 1].videoTimestamp <= buffer.targets[e].videoTimestamp
    {
      assert 0 < e < |buffer.targets| ==> NotLater(buffer.targets, e - 1, e);
    }

    /** The last target was one of the last cluster. */
    lemma LeavesFrom(bCuts: seq<nat>, plans: seq<Plan>, peak: real, start: real)
      requires Between(bCuts, plans, peak, start, |buffer.targets|) && SortedByTime(buffer.targets)
      ensures clusterPosition == |plans| - 1
    {
      assert IsPart(buffer.clusters, cuts, clusterPosition);
      CutsAreBounded(cuts, |buffer.targets|, clusterPosition + 1);
    }

    /** What a scan thread does with a claimed buffer: begin it and take every target. The targets come out one by
        one, in order, each exactly once, until one is refused; all do if and only if every cluster decodes. */
    method DecodeAll(next: DecodeBuffer, ghost nextCuts: seq<nat>)
      returns (timestamps: seq<real>, failure: NextResult, ghost plans: seq<Plan>)
      requires Valid() && Decodable(next, nextCuts) && next.shardIndex == shardIndex
      requires StartsWithTargets(next) && HasCluster(next, nextCuts, 0)
      modifies this
      ensures ArePlans(plans, old(PlanOf(next, nextCuts, 0)), next, nextCuts)
      ensures AllYielded(next, nextCuts, plans, timestamps)
      ensures if failure.Exhausted? then |timestamps| == |next.targets| else Refused(next, nextCuts, plans, |timestamps|, failure)
      ensures failure.Exhausted? <==> DecodesAll(next, nextCuts, plans)
      ensures |frames| <= 0xFFFF_FFFF_FFFF_FFFF ==>
                (failure.Exhausted? <==> DecodesInNumbers(next, nextCuts, plans, old(ClusterStart(next))))
      ensures old(Safe(next)) ==> forall i: nat :: i < |timestamps| ==> IsNearestTo(next, timestamps, i)
      ensures failure.Exhausted? ==> Left(next, plans, old(Peak(next)), old(ClusterStart(next)))
    {
      plans := PlansExist(PlanOf(next, nextCuts, 0), next, nextCuts);
      if |frames| <= 0xFFFF_FFFF_FFFF_FFFF {
        FirstBudget(next, nextCuts);
        DecodesAreNumbers(next, nextCuts, plans, plans[0], ClusterStart(next));
      }
      ghost var safe := Safe(next);
      if safe {
        SafeReachesAll(next, nextCuts, plans);
      }
      var ok := BeginBuffer(next, nextCuts);
      assert BetweenIn(nextCuts, plans, highest, clusterStartTimestamp, 0, 0);
      timestamps, failure := TakeAll(next, nextCuts, plans, highest, clusterStartTimestamp);
      if failure.Failed? {
        RefusedDoesNot(next, nextCuts, plans, |timestamps|, failure);
      } else {
        YieldedDoes(next, nextCuts, plans, timestamps);
      }
      if safe {
        ReachedAreNearest(next, nextCuts, plans, timestamps);
      }
    }

    lemma FirstBudget(next: DecodeBuffer, nextCuts: seq<nat>)
      requires Valid() && Decodable(next, nextCuts) && StartsWithTargets(next) && HasCluster(next, nextCuts, 0)
      ensures PlanOf(next, nextCuts, 0).budget
              == DecodeFrameBudget(ClusterStart(next), next.targets[nextCuts[1] - 1].videoTimestamp, fps)
    {
    }

    ghost function Peak(next: DecodeBuffer): real
      reads this
      requires StartsWithTargets(next)
    {
      if Continues(next) then highest else next.targets[0].videoTimestamp
    }

    ghost function ClusterStart(next: DecodeBuffer): real
      reads this
      requires StartsWithTargets(next)
    {
      if Continues(next) then clusterStartTimestamp else next.targets[0].videoTimestamp
    }

    /** How a fully decoded buffer leaves the window. */
    ghost predicate Left(b: DecodeBuffer, plans: seq<Plan>, peak: real, start: real)
      reads this
    {
      exists t :: LeftAt(b, plans, peak, start, t)
    }

    /** ... its last target being at t. */
    ghost predicate LeftAt(b: DecodeBuffer, plans: seq<Plan>, peak: real, start: real, t: real)
      reads this
    {
      && Valid() && b.targets != [] && plans != [] && plans[|plans| - 1].from < |frames|
      && haveClusterStart && haveLastTarget && lastTargetTimestamp == t == b.targets[|b.targets| - 1].videoTimestamp
      && CurrentPlan() == After(frames, plans[|plans| - 1], t)
      && highest == (if |plans| == 1 then Later(peak, t) else t)
      && (|plans| == 1 ==> clusterStartTimestamp == start)
    }
  }

  // Going on backwards, again and again, by no more than the slack each time

  function Single(t: real): DecodeBuffer {
    DecodeBuffer(0, [Target(t, 0, 0, 0, 0, 0, 0)], [[0]])
  }

  lemma SingleIsDecodable(t: real)
    ensures Decodable(Single(t), [0, 1])
  {
    assert IsPart([[0]], [0, 1], 0);
    assert Rises([0, 1], 0);
  }

  /** Three frames at 0, d and 2 * d. */
  function Three(d: real): seq<real> {
    [0.0, d, 2.0 * d]
  }

  /** After the first target, at 2 * d: the window holds the frames at d and 2 * d. */
  ghost predicate HoldsLastTwo(decoder: Decoder, d: real, t: real)
    reads decoder
  {
    && decoder.frames == Three(d) && decoder.tolerance == d && decoder.fps == 1 && decoder.shardIndex == 0
    && decoder.clusterGap >= 0.0 && decoder.Valid()
    && decoder.haveLastTarget && decoder.lastTargetTimestamp == t
    && decoder.haveClusterStart && decoder.clusterStartTimestamp == 2.0 * d
    && decoder.CurrentPlan().from == 1 && decoder.CurrentPlan().read == 3 && decoder.CurrentPlan().landed == 0
  }

  lemma ThreeFrames(d: real, plan: Plan, t: real)
    requires 0.0 < d && 0.0 <= t <= 2.0 * d && plan.landed == 0 && plan.budget >= 3 && plan.read <= 3
    requires plan.from == 1 || (plan.from == 0 && t == 2.0 * d)
    ensures Usable(Three(d), plan) && !OverBudget(Three(d), plan, t) && !AllOutOf(Three(d), plan.from, t, d)
    ensures After(Three(d), plan, t).from == 1 && (plan.read == 3 || plan.from == 0 ==> After(Three(d), plan, t).read == 3)
    ensures t == 0.0 ==> Selected(Three(d), plan.from, t) == d
  {
    FirstAtIs(Three(d), plan.from, t, if plan.from == 1 && t <= d then 1 else 2);
    assert Distance(t, Three(d)[1]) <= d;
  }

  /** A decoder that has just been created or holds the last two frames, and its plan for a target at t. */
  ghost predicate Prepared(decoder: Decoder, d: real, t: real, first: Plan)
    reads decoder
  {
    && decoder.frames == Three(d) && decoder.tolerance == d && decoder.fps == 1 && decoder.shardIndex == 0
    && decoder.clusterGap >= 0.0 && decoder.Valid() && Decodable(Single(t), [0, 1])
    && first == decoder.PlanOf(Single(t), [0, 1], 0) && decoder.ClusterStart(Single(t)) == 2.0 * d
    && first.landed == 0 && first.budget >= 3
    && ((first.from == 1 && first.read == 3) || (first.from == first.read == 0 && t == 2.0 * d))
  }

  method DecodeSingle(decoder: Decoder, ghost d: real, t: real, ghost first: Plan) returns (timestamp: real)
    requires 0.0 < d && 0.0 <= t <= 2.0 * d && Prepared(decoder, d, t, first)
    modifies decoder
    ensures HoldsLastTwo(decoder, d, t)
    ensures t == 0.0 ==> timestamp == d
  {
    ThreeFrames(d, first, t);
    var timestamps, failure, plans := decoder.DecodeAll(Single(t), [0, 1]);
    OneClusterDecodes(decoder, Single(t), plans);
    timestamp := timestamps[0];
    assert decoder.Yielded(Single(t), [0, 1], plans, 0, timestamp);
  }

  /** The next target may lie before the last one by the slack. */
  lemma Goes(decoder: Decoder, d: real, last: real, t: real) returns (first: Plan)
    requires 0.0 <= t <= last <= 2.0 * d && last <= t + TIMESTAMP_SLACK && HoldsLastTwo(decoder, d, last)
    ensures Prepared(decoder, d, t, first)
  {
    SingleIsDecodable(t);
    first := decoder.PlanOf(Single(t), [0, 1], 0);
  }

  lemma OneClusterDecodes(decoder: Decoder, b: DecodeBuffer, plans: seq<Plan>)
    requires |b.targets| == |plans| == 1 && decoder.frames != [] && Usable(decoder.frames, plans[0])
    requires !OverBudget(decoder.frames, plans[0], b.targets[0].videoTimestamp)
    requires !AllOutOf(decoder.frames, plans[0].from, b.targets[0].videoTimestamp, decoder.tolerance)
    ensures decoder.DecodesAll(b, [0, 1], plans)
  {
    assert decoder.HasFrame(b, plans, 0, 0);
    assert decoder.DecodesCluster(b, [0, 1], plans, 0);
  }

  /** However far apart the frames are: n slacks apart, the decoder ends up with the frame at n slacks for a target
      at 0, although the first frame is there. */
  method StepsBackAddUp(n: nat) returns (timestamp: real)
    requires n > 0
    ensures timestamp == n as real * 0.000000001
    ensures IsNearest(Three(timestamp), 0.0, 0.0) && timestamp != 0.0
  {
    var d := n as real * TIMESTAMP_SLACK;
    var decoder := new Decoder(0, Three(d), _ => 0, d, 1.0, 1);
    SingleIsDecodable(2.0 * d);
    timestamp := DecodeSingle(decoder, d, 2.0 * d, decoder.PlanOf(Single(2.0 * d), [0, 1], 0));
    for k := 2 * n downto 0
      invariant HoldsLastTwo(decoder, d, k as real * TIMESTAMP_SLACK)
      invariant k == 0 ==> timestamp == d
    {
      ghost var first := Goes(decoder, d, (k + 1) as real * TIMESTAMP_SLACK, k as real * TIMESTAMP_SLACK);
      timestamp := DecodeSingle(decoder, d, k as real * TIMESTAMP_SLACK, first);
    }
    assert Three(d)[0] == 0.0;
  }
}
