/** Selecting frames with a two-frame window, as functions of the video alone.

    A video is the sequence of presentation timestamps its decoder yields, as exact reals in non-decreasing
    order. A decoder that has read some frames can still select from the oldest retained one on. */
module FrameWindow {
  datatype DecodeError = NoFrames | OutOfTolerance | BudgetExceeded
  datatype NextResult = Frame(target: nat, timestamp: real) | Exhausted | Failed(error: DecodeError)

  function Distance(a: real, b: real): real {
    if a < b then b - a else a - b
  }

  ghost predicate InTime(frames: seq<real>, i: nat, j: nat)
    requires i < |frames| && j < |frames|
  {
    frames[i] <= frames[j]
  }

  ghost predicate NonDecreasing(frames: seq<real>) {
    forall i: nat, j: nat :: i <= j < |frames| ==> InTime(frames, i, j)
  }

  lemma Pairs(frames: seq<real>)
    requires NonDecreasing(frames)
    ensures forall i, j :: 0 <= i <= j < |frames| ==> frames[i] <= frames[j]
  {
    forall i, j | 0 <= i <= j < |frames| ensures frames[i] <= frames[j] {
      assert InTime(frames, i, j);
    }
  }

  ghost predicate NoBetter(other: real, t: real, timestamp: real) {
    || Distance(timestamp, t) < Distance(other, t)
    || (Distance(timestamp, t) == Distance(other, t) && timestamp <= other)
  }

  /** `timestamp` is that of a nearest frame among frames[from..], the earlier one on a tie. */
  ghost predicate IsNearestFrom(frames: seq<real>, from: nat, t: real, timestamp: real) {
    && from <= |frames| && timestamp in frames[from..]
    && forall i :: from <= i < |frames| ==> NoBetter(frames[i], t, timestamp)
  }

  /** `timestamp` is that of a nearest frame of the whole stream, the earlier one on a tie. */
  ghost predicate IsNearest(frames: seq<real>, t: real, timestamp: real) {
    && timestamp in frames
    && forall i :: 0 <= i < |frames| ==> NoBetter(frames[i], t, timestamp)
  }

  /** So what is decoded for a target does not depend on how the decoder got there. */
  lemma NearestIsUnique(frames: seq<real>, t: real, a: real, b: real)
    requires IsNearest(frames, t, a) && IsNearest(frames, t, b)
    ensures a == b
  {
    var i :| 0 <= i < |frames| && frames[i] == a;
    var j :| 0 <= j < |frames| && frames[j] == b;
    assert NoBetter(frames[i], t, b) && NoBetter(frames[j], t, a);
  }

  // What the window selects ----------------------------------------------------------------------------

  /** First frame at or after t, counted from `from`. */
  function FirstAt(frames: seq<real>, from: nat, t: real): (i: nat)
    requires from <= |frames|
    ensures from <= i <= |frames|
    ensures i < |frames| ==> t <= frames[i]
    ensures forall j :: from <= j < i ==> frames[j] < t
    decreases |frames| - from
  {
    if from == |frames| || t <= frames[from] then from else FirstAt(frames, from + 1, t)
  }

  /** How many frames have to be read for target t. */
  function ReadUpTo(frames: seq<real>, from: nat, t: real): (r: nat)
    requires from <= |frames|
    ensures r <= |frames|
  {
    var i := FirstAt(frames, from, t);
    if i < |frames| then i + 1 else |frames|
  }

  /** The oldest frame that can be selected after target t. */
  function OldestAfter(frames: seq<real>, from: nat, t: real): (o: nat)
    requires from < |frames|
    ensures from <= o < |frames|
  {
    var i := FirstAt(frames, from, t);
    if i == from then from else i - 1
  }

  function Nearer(a: real, b: real, t: real): real {
    if Distance(a, t) <= Distance(b, t) then a else b
  }

  function Selected(frames: seq<real>, from: nat, t: real): real
    requires from < |frames|
  {
    var i := FirstAt(frames, from, t);
    if i == |frames| then frames[i - 1] else if i == from then frames[i] else Nearer(frames[i - 1], frames[i], t)
  }

  lemma SelectedIsNearestFrom(frames: seq<real>, from: nat, t: real)
    requires NonDecreasing(frames) && from < |frames|
    ensures IsNearestFrom(frames, from, t, Selected(frames, from, t))
  {
    Pairs(frames);
    var i, s := FirstAt(frames, from, t), Selected(frames, from, t);
    assert s == (if i < |frames| && frames[i] == s then frames[from..][i - from] else frames[from..][i - 1 - from]);
  }

  /** Every frame before `from` is farther from t than frame `from`, or has its timestamp. */
  ghost predicate Reaches(frames: seq<real>, from: nat, t: real)
    requires from < |frames|
  {
    forall i :: 0 <= i < from ==> frames[i] == frames[from] || frames[i] + frames[from] < 2.0 * t
  }

  /** The exact condition under which the selected frame is nearest in the whole stream: every earlier frame lies
      with the oldest retained one around a middle before t, or has the same timestamp. */
  lemma NearestIfReached(frames: seq<real>, from: nat, t: real)
    requires NonDecreasing(frames) && from < |frames|
    ensures IsNearest(frames, t, Selected(frames, from, t)) <==> Reaches(frames, from, t)
  {
    Pairs(frames);
    var s := Selected(frames, from, t);
    SelectedIsNearestFrom(frames, from, t);
    assert s in frames by {
      var k :| 0 <= k < |frames[from..]| && frames[from..][k] == s;
      assert frames[from + k] == s;
    }
    assert NoBetter(frames[from], t, s) && frames[from] <= s;
    if Reaches(frames, from, t) {
      forall i | 0 <= i < from ensures NoBetter(frames[i], t, s) {
        assert frames[i] == frames[from] || frames[i] + frames[from] < 2.0 * t;
      }
    }
    if IsNearest(frames, t, s) {
      forall i | 0 <= i < from ensures frames[i] == frames[from] || frames[i] + frames[from] < 2.0 * t {
        assert NoBetter(frames[i], t, s);
      }
    }
  }

  /** A decoder whose oldest retained frame lies at or before t, or is the first of all, reaches t. */
  lemma ReachesLater(frames: seq<real>, from: nat, t: real)
    requires NonDecreasing(frames) && from < |frames| && (from == 0 || frames[from] <= t)
    ensures Reaches(frames, from, t)
  {
    Pairs(frames);
  }

  ghost predicate FartherApartThan(frames: seq<real>, gap: real) {
    forall i, j :: 0 <= i <= j < |frames| ==> frames[i] == frames[j] || frames[i] + gap < frames[j]
  }

  /** It also reaches back from `highest` to t when different frames are more than twice as far apart. */
  lemma ReachesBack(frames: seq<real>, from: nat, highest: real, t: real)
    requires from < |frames| && (from == 0 || frames[from] <= highest)
    requires FartherApartThan(frames, 2.0 * (highest - t))
    ensures Reaches(frames, from, t)
  {
    forall i | 0 <= i < from ensures frames[i] == frames[from] || frames[i] + frames[from] < 2.0 * t {
      assert frames[i] == frames[from] || frames[i] + 2.0 * (highest - t) < frames[from];
    }
  }

  // One target after another ---------------------------------------------------------------------------

  /** Where decoding goes on: the oldest frame retained, how many frames have been read, at which frame the last
      seek landed, and how many frames may be read from there. */
  datatype Plan = Plan(from: nat, read: nat, landed: nat, budget: nat)

  /** A seek that landed at frame `at`. */
  function Landed(at: nat, budget: nat): Plan {
    Plan(at, at, at, budget)
  }

  ghost predicate Usable(frames: seq<real>, plan: Plan) {
    plan.from <= |frames| && plan.read <= |frames| && (frames != [] ==> plan.from < |frames|)
  }

  /** More frames would have to be read for t than the budget allows. */
  predicate OverBudget(frames: seq<real>, plan: Plan, t: real)
    requires plan.from <= |frames|
  {
    var needed := ReadUpTo(frames, plan.from, t);
    plan.read < needed && needed - plan.landed > plan.budget
  }

  /** What becomes of a target. */
  function Decoded(frames: seq<real>, plan: Plan, target: nat, t: real, tolerance: real): (r: NextResult)
    requires plan.from <= |frames| && (frames != [] ==> plan.from < |frames|)
  {
    if frames == [] then Failed(NoFrames)
    else if OverBudget(frames, plan, t) then Failed(BudgetExceeded)
    else Accepted(target, t, Selected(frames, plan.from, t), tolerance)
  }

  function Accepted(target: nat, t: real, selected: real, tolerance: real): NextResult {
    if Distance(t, selected) > tolerance then Failed(OutOfTolerance) else Frame(target, selected)
  }

  function After(frames: seq<real>, plan: Plan, t: real): Plan
    requires plan.from < |frames|
  {
    var needed := ReadUpTo(frames, plan.from, t);
    plan.(from := OldestAfter(frames, plan.from, t), read := if plan.read < needed then needed else plan.read)
  }

  /** No frame from the oldest retained one on is within the tolerance. */
  ghost predicate AllOutOf(frames: seq<real>, from: nat, t: real, tolerance: real) {
    forall i :: from <= i < |frames| ==> Distance(t, frames[i]) > tolerance
  }

  /** What the outcomes mean. */
  lemma DecodedMeans(frames: seq<real>, plan: Plan, target: nat, t: real, tolerance: real)
    requires NonDecreasing(frames) && Usable(frames, plan)
    ensures var r := Decoded(frames, plan, target, t, tolerance);
            && (r == Failed(NoFrames) <==> frames == [])
            && (r == Failed(BudgetExceeded) <==> frames != [] && OverBudget(frames, plan, t))
            && (r == Failed(OutOfTolerance) <==>
                  frames != [] && !OverBudget(frames, plan, t) && AllOutOf(frames, plan.from, t, tolerance))
            && (r.Failed? || (r.Frame? && r.target == target && IsNearestFrom(frames, plan.from, t, r.timestamp)
                              && Distance(t, r.timestamp) <= tolerance))
            && (r.Frame? ==> (IsNearest(frames, t, r.timestamp) <==> Reaches(frames, plan.from, t)))
  {
    if frames != [] {
      SelectedIsNearestFrom(frames, plan.from, t);
      NearestIfReached(frames, plan.from, t);
      var s := Selected(frames, plan.from, t);
      var k :| 0 <= k < |frames[plan.from..]| && frames[plan.from..][k] == s;
      assert frames[plan.from + k] == s;
      if Distance(t, s) > tolerance {
        forall i | plan.from <= i < |frames| ensures Distance(t, frames[i]) > tolerance {
          assert NoBetter(frames[i], t, s);
        }
      }
    }
  }

  lemma FirstAtIs(frames: seq<real>, from: nat, t: real, i: nat)
    requires from <= i <= |frames|
    requires i < |frames| ==> t <= frames[i]
    requires forall j :: from <= j < i ==> frames[j] < t
    ensures FirstAt(frames, from, t) == i
  {
  }

  lemma FirstAtLater(frames: seq<real>, from: nat, t: real, later: real)
    requires from < |frames| && t <= later
    ensures FirstAt(frames, from, t) <= FirstAt(frames, from, later)
    ensures FirstAt(frames, OldestAfter(frames, from, t), later) == FirstAt(frames, from, later)
  {
    var j := FirstAt(frames, from, later);
    FirstAtIs(frames, OldestAfter(frames, from, t), later, j);
  }

  /** Decoding a target after an earlier one is as decoding it at once. */
  lemma DecodedLater(frames: seq<real>, plan: Plan, target: nat, t: real, later: real, tolerance: real, earlier: nat)
    requires Usable(frames, plan) && t <= later
    requires Decoded(frames, plan, earlier, t, tolerance).Frame?
    ensures Usable(frames, After(frames, plan, t))
    ensures Decoded(frames, After(frames, plan, t), target, later, tolerance) == Decoded(frames, plan, target, later, tolerance)
    ensures After(frames, After(frames, plan, t), later) == After(frames, plan, later)
  {
    FirstAtLater(frames, plan.from, t, later);
  }

  /** Two plans that lead to the same outcome for a target. */
  ghost predicate SamePlan(frames: seq<real>, a: Plan, b: Plan, target: nat, t: real, tolerance: real) {
    && Usable(frames, a) && Usable(frames, b)
    && Decoded(frames, a, target, t, tolerance) == Decoded(frames, b, target, t, tolerance)
    && (frames != [] ==> After(frames, a, t) == After(frames, b, t))
  }

  /** All frames read so far lie before t: one more has to be read, and may be. */
  lemma OneMoreFrame(frames: seq<real>, plan: Plan, oldest: nat, target: nat, t: real, tolerance: real)
    requires plan.from <= plan.read < |frames| && FirstAt(frames, plan.from, t) >= plan.read
    requires oldest == (if plan.from < plan.read then plan.read - 1 else plan.from)
    requires plan.read + 1 - plan.landed <= plan.budget
    ensures SamePlan(frames, plan, plan.(from := oldest, read := plan.read + 1), target, t, tolerance)
  {
    FirstAtIs(frames, oldest, t, FirstAt(frames, plan.from, t));
  }

  /** ... but may not be. */
  lemma OneTooMany(frames: seq<real>, plan: Plan, target: nat, t: real, tolerance: real)
    requires plan.from <= plan.read < |frames| && FirstAt(frames, plan.from, t) >= plan.read
    requires plan.read + 1 - plan.landed > plan.budget
    ensures Decoded(frames, plan, target, t, tolerance) == Failed(BudgetExceeded)
  {
  }

  /** All frames of the stream have been read, and lie before t or the last one alone is retained. */
  lemma EndOfStream(frames: seq<real>, plan: Plan, oldest: nat, t: real)
    requires plan.from < plan.read == |frames| && oldest == |frames| - 1
    requires FirstAt(frames, plan.from, t) == |frames| || plan.from == oldest
    ensures !OverBudget(frames, plan, t) && Selected(frames, plan.from, t) == frames[oldest]
    ensures After(frames, plan, t) == plan.(from := oldest)
  {
  }

  /** A later target needs no fewer frames: a cluster stays within its budget if its last target does. */
  lemma OverBudgetLater(frames: seq<real>, plan: Plan, t: real, later: real)
    requires plan.from < |frames| && t <= later && OverBudget(frames, plan, t)
    ensures OverBudget(frames, plan, later)
  {
    FirstAtLater(frames, plan.from, t, later);
  }
}
