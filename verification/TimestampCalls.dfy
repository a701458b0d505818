/** Whole lookups, several at a time: every call goes through its files, merges what the indexes find and leaves the
    other files to one filtered query, while other calls load and evict indexes and files are replaced. */
module TimestampCalls {
  import opened Collections
  import opened TimestampRows
  import opened TimestampScan
  import opened TimestampSlots
  import opened TimestampInvariant
  import TR = TimestampRuns

  /** `since` are the versions of the files when the call began. */
  datatype Request = Request(files: seq<nat>, keys: seq<Key>, lance: bool, since: seq<nat>)

  datatype Result = Threw | TooMany | Matches(matches: seq<Match>)

  /** A call at file |indexes|; `asked` once GetIndex has been called for it. For every earlier file, the rows of the
      index it got and the version they are of. */
  datatype Call =
    | NoCall
    | Active(request: Request, asked: bool, indexes: seq<Option<seq<IndexRow>>>, seen: seq<nat>, matches: seq<Match>)
    | Returned(request: Request, seen: seq<nat>, result: Result)

  datatype System = System(base: TR.System, calls: seq<Call>)

  datatype Step =
    | Inner(step: TR.Step)   // a section of GetIndex, or a file is replaced
    | Begin(id: nat, files: seq<nat>, keys: seq<Key>, lance: bool)
    | MergeFile(id: nat)     // the index is merged and given up
    | Pass(id: nat)          // there is no index: the file is left to the query
    | Query(id: nat)
    | Return(id: nat)        // nothing is left to query
    | Interrupt(id: nat)

  function Versions(s: TR.System, files: seq<nat>): (r: seq<nat>)
    ensures |r| == |files| && forall i :: 0 <= i < |r| ==> r[i] == TR.Version(s, files[i])
  {
    seq(|files|, i requires 0 <= i < |files| => TR.Version(s, files[i]))
  }

  ghost function ContentsAt(c: Config, files: seq<nat>, versions: seq<nat>): (r: seq<seq<RawRow>>)
    requires |files| == |versions|
    ensures |r| == |files| && forall i :: 0 <= i < |r| ==> r[i] == c.contents(files[i], versions[i])
  {
    seq(|files|, i requires 0 <= i < |files| => c.contents(files[i], versions[i]))
  }

  /** The versions a call has seen, with the files not answered from an index as they are now. */
  function SeenNow(s: TR.System, call: Call): (r: seq<nat>)
    requires call.Active? && |call.indexes| == |call.seen| <= |call.request.files|
    ensures |r| == |call.request.files|
    ensures forall i :: 0 <= i < |r| ==>
              r[i] == if i < |call.seen| && call.indexes[i].Some? then call.seen[i] else TR.Version(s, call.request.files[i])
  {
    seq(|call.request.files|, i requires 0 <= i < |call.request.files| =>
          if i < |call.seen| && call.indexes[i].Some? then call.seen[i] else TR.Version(s, call.request.files[i]))
  }

  // Steps --------------------------------------------------------------------------------------------

  ghost predicate IsActive(s: System, id: nat) {
    && id < |s.calls| == |s.base.threads| && s.calls[id].Active?
    && |s.calls[id].indexes| == |s.calls[id].seen| <= |s.calls[id].request.files|
    && |s.calls[id].matches| == |s.calls[id].request.keys|
  }

  ghost predicate IsBetween(s: System, id: nat) {
    IsActive(s, id) && TR.Running(s.base, id, TR.Idle)
  }

  predicate AllIndexed(call: Call)
    requires call.Active?
  {
    forall i :: 0 <= i < |call.indexes| ==> call.indexes[i].Some?
  }

  ghost predicate InnerEnabled(c: Config, s: System, step: TR.Step) {
    && TR.Enabled(c, s.base, step)
    && match step
       case Visit(id, path, _, _) =>
         && IsActive(s, id) && !s.calls[id].asked && !s.calls[id].request.lance && c.limit > 0
         && |s.calls[id].seen| < |s.calls[id].request.files| && path == s.calls[id].request.files[|s.calls[id].seen|]
       case Release(_) => false
       case Throw(id) => IsActive(s, id)
       case _ => true
  }

  ghost predicate Enabled(c: Config, s: System, step: Step) {
    match step
    case Inner(step) => InnerEnabled(c, s, step)
    case Begin(id, files, keys, lance) =>
      id < |s.calls| == |s.base.threads| && !s.calls[id].Active? && TR.Running(s.base, id, TR.Idle)
    case MergeFile(id) =>
      && IsActive(s, id) && TR.Running(s.base, id, TR.Using) && s.base.threads[id].index.Some?
    case Pass(id) =>
      && IsBetween(s, id) && |s.calls[id].seen| < |s.calls[id].request.files|
      && (s.calls[id].asked || s.calls[id].request.lance || c.limit == 0)
    case Query(id) => IsBetween(s, id) && |s.calls[id].seen| == |s.calls[id].request.files| && !AllIndexed(s.calls[id])
    case Return(id) => IsBetween(s, id) && |s.calls[id].seen| == |s.calls[id].request.files| && AllIndexed(s.calls[id])
    case Interrupt(id) => IsBetween(s, id)
  }

  function WithCall(s: System, base: TR.System, id: nat, call: Call): System
    requires id < |s.calls|
  {
    System(base, s.calls[id := call])
  }

  ghost function AfterInner(c: Config, s: System, step: TR.Step): System
    requires InnerEnabled(c, s, step)
  {
    var base := TR.Next(c, s.base, step);
    match step
    case Visit(id, _, _, _) => WithCall(s, base, id, s.calls[id].(asked := true))
    case Throw(id) => WithCall(s, base, id, Returned(s.calls[id].request, [], Threw))
    case _ => s.(base := base)
  }

  /** With keys, a call starts at its first file; without, it returns at once. */
  function FirstState(base: TR.System, files: seq<nat>, keys: seq<Key>, lance: bool): Call {
    var request := Request(files, keys, lance, Versions(base, files));
    if keys == [] then Returned(request, request.since, Matches([]))
    else Active(request, false, [], [], seq(|keys|, _ => NoMatch))
  }

  ghost function AfterMerge(c: Config, s: System, id: nat): System
    requires Enabled(c, s, MergeFile(id))
  {
    var call, t := s.calls[id], s.base.threads[id];
    var rows := s.base.state.indexes[t.index.value].rows;
    var base := TR.Next(c, s.base, TR.Release(id));
    var merged := call.(asked := false, indexes := call.indexes + [Some(rows)], seen := call.seen + [t.fingerprint]);
    match MergeAll(call.matches, Found(rows, call.request.keys))
    case None =>
      WithCall(s, base, id, Returned(call.request,
                                     if |merged.seen| <= |call.request.files| then SeenNow(s.base, merged) else [], TooMany))
    case Some(matches) => WithCall(s, base, id, merged.(matches := matches))
  }

  /** The rows that the query reads. */
  ghost function QueriedRows(c: Config, base: TR.System, call: Call): seq<RawRow>
    requires call.Active? && |call.indexes| == |call.seen| == |call.request.files|
  {
    PartRows(ContentsAt(c, call.request.files, SeenNow(base, call)), call.indexes, |call.indexes|, false)
  }

  ghost function AfterQuery(c: Config, s: System, id: nat): System
    requires Enabled(c, s, Query(id))
  {
    var call := s.calls[id];
    var result := match MergeAll(call.matches, Answers(QueriedRows(c, s.base, call), call.request.keys))
                  case None => TooMany
                  case Some(matches) => Matches(matches);
    WithCall(s, s.base, id, Returned(call.request, SeenNow(s.base, call), result))
  }

  ghost function Next(c: Config, s: System, step: Step): System
    requires Enabled(c, s, step)
  {
    match step
    case Inner(step) => AfterInner(c, s, step)
    case Begin(id, files, keys, lance) => WithCall(s, s.base, id, FirstState(s.base, files, keys, lance))
    case MergeFile(id) => AfterMerge(c, s, id)
    case Pass(id) =>
      var call := s.calls[id];
      WithCall(s, s.base, id, call.(asked := false, indexes := call.indexes + [None], seen := call.seen + [0]))
    case Query(id) => AfterQuery(c, s, id)
    case Return(id) =>
      var call := s.calls[id];
      WithCall(s, s.base, id, Returned(call.request, SeenNow(s.base, call), Matches(call.matches)))
    case Interrupt(id) => WithCall(s, s.base, id, Returned(s.calls[id].request, [], Threw))
  }

  // The invariant ------------------------------------------------------------------------------------

  /** File i was seen as at a version it had during the call. */
  ghost predicate SeenDuring(s: TR.System, request: Request, seen: seq<nat>, i: nat) {
    && i < |seen| && i < |request.files| == |request.since|
    && request.since[i] <= seen[i] <= TR.Version(s, request.files[i])
  }

  ghost predicate StartedBefore(s: TR.System, request: Request, i: nat) {
    i < |request.files| == |request.since| && request.since[i] <= TR.Version(s, request.files[i])
  }

  ghost predicate GoodIndex(c: Config, s: TR.System, call: Call, i: nat)
    requires call.Active?
  {
    && i < |call.indexes| == |call.seen|
    && (call.indexes[i].Some? ==>
          && SeenDuring(s, call.request, call.seen, i)
          && Indexes(call.indexes[i].value, c.contents(call.request.files[i], call.seen[i])))
  }

  /** The rows of the first n files, each as it was seen. */
  ghost function SeenRows(c: Config, call: Call): seq<RawRow>
    requires call.Active? && |call.indexes| == |call.seen| <= |call.request.files|
  {
    var n := |call.seen|;
    PartRows(ContentsAt(c, call.request.files[..n], call.seen), call.indexes, n, true)
  }

  ghost predicate CallOk(c: Config, s: TR.System, call: Call)
    requires call.Active?
  {
    && |call.indexes| == |call.seen| <= |call.request.files| == |call.request.since|
    && (forall i: nat :: i < |call.request.files| ==> StartedBefore(s, call.request, i))
    && (forall i: nat :: i < |call.indexes| ==> GoodIndex(c, s, call, i))
    && TracksAll(call.matches, SeenRows(c, call), call.request.keys)
  }

  /** Inside GetIndex a thread is at the file of its call. */
  ghost predicate AtFile(t: TR.Thread, call: Call) {
    && call.Active? && call.asked
    && |call.seen| < |call.request.files| == |call.request.since|
    && t.path == call.request.files[|call.seen|] && call.request.since[|call.seen|] <= t.since
  }

  /** A result is that of one plain scan of the rows. */
  ghost predicate IsScan(result: Result, rows: seq<RawRow>, keys: seq<Key>) {
    && (result.TooMany? <==> Overflows(rows, keys))
    && (result.Matches? ==>
          |result.matches| == |keys| && forall k :: 0 <= k < |keys| ==> Agree(result.matches[k], Answer(Selected(rows, keys[k]))))
  }

  ghost predicate ResultOk(c: Config, s: TR.System, call: Call)
    requires call.Returned?
  {
    call.result.Threw? ||
    (&& |call.seen| == |call.request.files|
     && (forall i: nat :: i < |call.seen| ==> SeenDuring(s, call.request, call.seen, i))
     && IsScan(call.result, AllRows(ContentsAt(c, call.request.files, call.seen), |call.seen|), call.request.keys))
  }

  ghost predicate LookupOk(c: Config, s: System, id: nat) {
    id < |s.calls| ==>
      && (s.calls[id].Active? ==> CallOk(c, s.base, s.calls[id]))
      && (s.calls[id].Returned? ==> ResultOk(c, s.base, s.calls[id]))
      && (id < |s.base.threads| && s.base.threads[id].phase != TR.Idle ==> AtFile(s.base.threads[id], s.calls[id]))
  }

  ghost predicate Inv(c: Config, s: System) {
    TR.Inv(c, s.base) && |s.calls| == |s.base.threads| && forall id: nat :: LookupOk(c, s, id)
  }

  ghost predicate Start(s: System) {
    TR.Start(s.base) && |s.calls| == |s.base.threads| && forall id: nat :: id < |s.calls| ==> s.calls[id] == NoCall
  }

  ghost predicate IsRun(c: Config, states: seq<System>, steps: seq<Step>) {
    && |states| == |steps| + 1 && Start(states[0])
    && forall k: nat :: k < |steps| ==> StepAt(c, states, steps, k)
  }

  ghost predicate StepAt(c: Config, states: seq<System>, steps: seq<Step>, k: nat) {
    && k < |steps| && k + 1 < |states|
    && Enabled(c, states[k], steps[k]) && states[k + 1] == Next(c, states[k], steps[k])
  }

  // What inner steps leave alone ---------------------------------------------------------------------

  lemma VersionsGrow(c: Config, s: TR.System, step: TR.Step, file: nat)
    requires TR.Enabled(c, s, step)
    ensures TR.Version(s, file) <= TR.Version(TR.Next(c, s, step), file)
    ensures !step.Replace? ==> TR.Next(c, s, step).versions == s.versions
    ensures |TR.Next(c, s, step).threads| == |s.threads|
  {
  }

  /** A thread keeps its file until it leaves GetIndex, which it enters by a visit. */
  lemma ThreadKeepsFile(c: Config, s: TR.System, step: TR.Step, id: nat)
    requires TR.Enabled(c, s, step) && id < |s.threads|
    ensures var t, t' := s.threads[id], TR.Next(c, s, step).threads[id];
            || t'.phase == TR.Idle
            || (t.phase != TR.Idle && t'.path == t.path && t'.since == t.since)
            || (step.Visit? && step.id == id && t'.path == step.path && t'.since == TR.Version(s, step.path))
  {
  }

  lemma CallStays(c: Config, s: TR.System, r: TR.System, call: Call)
    requires call.Active? && CallOk(c, s, call)
    requires forall file: nat :: TR.Version(s, file) <= TR.Version(r, file)
    ensures CallOk(c, r, call)
  {
    forall i: nat | i < |call.request.files| ensures StartedBefore(r, call.request, i) {
      assert StartedBefore(s, call.request, i);
    }
    forall i: nat | i < |call.indexes| ensures GoodIndex(c, r, call, i) {
      assert GoodIndex(c, s, call, i);
    }
  }

  lemma ResultStays(c: Config, s: TR.System, r: TR.System, call: Call)
    requires call.Returned? && ResultOk(c, s, call)
    requires forall file: nat :: TR.Version(s, file) <= TR.Version(r, file)
    ensures ResultOk(c, r, call)
  {
    if !call.result.Threw? {
      forall i: nat | i < |call.seen| ensures SeenDuring(r, call.request, call.seen, i) {
        assert SeenDuring(s, call.request, call.seen, i);
      }
    }
  }

  // Rows seen so far ---------------------------------------------------------------------------------

  ghost predicate SamePart(a: seq<seq<RawRow>>, ia: seq<Option<seq<IndexRow>>>, b: seq<seq<RawRow>>,
                           ib: seq<Option<seq<IndexRow>>>, i: nat, indexed: bool)
  {
    && i < |a| == |ia| && i < |b| == |ib|
    && ia[i].Some? == ib[i].Some? && (ia[i].Some? == indexed ==> a[i] == b[i])
  }

  lemma {:induction false} PartRowsAgree(a: seq<seq<RawRow>>, ia: seq<Option<seq<IndexRow>>>, b: seq<seq<RawRow>>,
                                         ib: seq<Option<seq<IndexRow>>>, n: nat, indexed: bool)
    requires n <= |a| == |ia| && n <= |b| == |ib| && forall i: nat :: i < n ==> SamePart(a, ia, b, ib, i, indexed)
    ensures PartRows(a, ia, n, indexed) == PartRows(b, ib, n, indexed)
  {
    if n > 0 {
      assert SamePart(a, ia, b, ib, n - 1, indexed);
      PartRowsAgree(a, ia, b, ib, n - 1, indexed);
    }
  }

  /** The rows seen are those of the indexed files among all of them. */
  lemma SeenRowsAre(c: Config, s: TR.System, call: Call, indexes: seq<Option<seq<IndexRow>>>)
    requires call.Active? && |call.indexes| == |call.seen| <= |call.request.files| == |indexes|
    requires forall i: nat :: i < |call.indexes| ==> indexes[i] == call.indexes[i]
    ensures SeenRows(c, call) == PartRows(ContentsAt(c, call.request.files, SeenNow(s, call)), indexes, |call.seen|, true)
  {
    var n := |call.seen|;
    var a, b := ContentsAt(c, call.request.files[..n], call.seen), ContentsAt(c, call.request.files, SeenNow(s, call));
    forall i: nat | i < n ensures SamePart(a, call.indexes, b, indexes, i, true) {
    }
    PartRowsAgree(a, call.indexes, b, indexes, n, true);
  }

  /** One more file. */
  lemma SeenRowsGrow(c: Config, call: Call, index: Option<seq<IndexRow>>, version: nat, next: Call)
    requires call.Active? && |call.indexes| == |call.seen| < |call.request.files|
    requires next.Active? && next.request == call.request
    requires next.indexes == call.indexes + [index] && next.seen == call.seen + [version]
    ensures SeenRows(c, next) == SeenRows(c, call) + if index.Some? then c.contents(call.request.files[|call.seen|], version) else []
  {
    var n := |call.seen|;
    var a, b := ContentsAt(c, call.request.files[..n], call.seen), ContentsAt(c, call.request.files[..n + 1], next.seen);
    forall i: nat | i < n ensures SamePart(a, call.indexes, b, next.indexes, i, true) {
    }
    PartRowsAgree(a, call.indexes, b, next.indexes, n, true);
  }

  /** A call that has not ended stays within the versions of its files. */
  lemma SeenNowDuring(c: Config, s: TR.System, call: Call)
    requires call.Active? && CallOk(c, s, call)
    ensures forall i: nat :: i < |call.request.files| ==> SeenDuring(s, call.request, SeenNow(s, call), i)
  {
    forall i: nat | i < |call.request.files| ensures SeenDuring(s, call.request, SeenNow(s, call), i) {
      assert StartedBefore(s, call.request, i);
      assert i < |call.indexes| ==> GoodIndex(c, s, call, i);
    }
  }

  // Every step keeps the invariant -------------------------------------------------------------------

  /** A step of one call alone. */
  lemma OwnStepOk(c: Config, s: System, r: System, id: nat)
    requires Inv(c, s) && TR.Inv(c, r.base) && r.base.versions == s.base.versions
    requires |r.base.threads| == |s.base.threads| && |r.calls| == |s.calls| && id < |s.calls|
    requires forall i: nat :: i < |s.calls| && i != id ==> r.calls[i] == s.calls[i] && r.base.threads[i] == s.base.threads[i]
    requires LookupOk(c, r, id)
    ensures Inv(c, r)
  {
    forall i: nat ensures LookupOk(c, r, i) {
      if i < |s.calls| && i != id {
        assert LookupOk(c, s, i);
        OtherCallOk(c, s, r, i);
      }
    }
  }

  lemma OtherCallOk(c: Config, s: System, r: System, i: nat)
    requires LookupOk(c, s, i) && i < |s.calls| == |r.calls| && r.calls[i] == s.calls[i]
    requires forall file: nat :: TR.Version(s.base, file) <= TR.Version(r.base, file)
    requires |r.base.threads| == |s.base.threads| && |r.calls| == |r.base.threads|
    requires r.base.threads[i].phase != TR.Idle ==> AtFile(r.base.threads[i], r.calls[i])
    ensures LookupOk(c, r, i)
  {
    if s.calls[i].Active? {
      CallStays(c, s.base, r.base, s.calls[i]);
    } else if s.calls[i].Returned? {
      ResultStays(c, s.base, r.base, s.calls[i]);
    }
  }

  lemma InnerOk(c: Config, s: System, step: TR.Step)
    requires Inv(c, s) && InnerEnabled(c, s, step)
    ensures Inv(c, AfterInner(c, s, step))
  {
    var r := AfterInner(c, s, step);
    TR.StepKeepsInv(c, s.base, step);
    forall file: nat ensures TR.Version(s.base, file) <= TR.Version(r.base, file) {
      VersionsGrow(c, s.base, step, file);
    }
    VersionsGrow(c, s.base, step, 0);
    forall i: nat ensures LookupOk(c, r, i) {
      assert LookupOk(c, s, i);
      if i < |s.calls| {
        ThreadKeepsFile(c, s.base, step, i);
        InnerCallOk(c, s, r, step, i);
      }
    }
  }

  lemma InnerCallOk(c: Config, s: System, r: System, step: TR.Step, i: nat)
    requires Inv(c, s) && InnerEnabled(c, s, step) && r == AfterInner(c, s, step) && i < |s.calls|
    requires |r.base.threads| == |s.base.threads|
    requires forall file: nat :: TR.Version(s.base, file) <= TR.Version(r.base, file)
    requires var t, t' := s.base.threads[i], r.base.threads[i];
             || t'.phase == TR.Idle
             || (t.phase != TR.Idle && t'.path == t.path && t'.since == t.since)
             || (step.Visit? && step.id == i && t'.path == step.path && t'.since == TR.Version(s.base, step.path))
    ensures LookupOk(c, r, i)
  {
    assert LookupOk(c, s, i);
    var call := s.calls[i];
    if step.Visit? && step.id == i {
      CallStays(c, s.base, r.base, call);
      assert StartedBefore(s.base, call.request, |call.seen|);
      AskedOk(c, r.base, call);
    } else if step.Throw? && step.id == i {
    } else {
      OtherCallOk(c, s, r, i);
    }
  }

  lemma AskedOk(c: Config, s: TR.System, call: Call)
    requires call.Active? && CallOk(c, s, call)
    ensures CallOk(c, s, call.(asked := true))
  {
    var asked := call.(asked := true);
    forall i: nat | i < |asked.indexes| ensures GoodIndex(c, s, asked, i) {
      assert GoodIndex(c, s, call, i);
    }
  }

  lemma BeginOk(c: Config, s: System, id: nat, files: seq<nat>, keys: seq<Key>, lance: bool)
    requires Inv(c, s) && Enabled(c, s, Begin(id, files, keys, lance))
    ensures Inv(c, Next(c, s, Begin(id, files, keys, lance)))
  {
    var r := Next(c, s, Begin(id, files, keys, lance));
    var call := r.calls[id];
    forall i: nat | i < |files| ensures StartedBefore(s.base, call.request, i) && SeenDuring(s.base, call.request, call.request.since, i) {
    }
    if call.Active? {
      forall k | 0 <= k < |keys| ensures TracksKey(call.matches[k], SeenRows(c, call), keys[k]) {
      }
    }
    OwnStepOk(c, s, r, id);
  }

  /** What merging an index of the file at hand does to a call. */
  lemma FileMerged(c: Config, s: TR.System, call: Call, rows: seq<IndexRow>, version: nat, merged: Call)
    requires call.Active? && CallOk(c, s, call) && |call.seen| < |call.request.files|
    requires var file := call.request.files[|call.seen|];
             call.request.since[|call.seen|] <= version <= TR.Version(s, file) && Indexes(rows, c.contents(file, version))
    requires merged == call.(asked := false, indexes := call.indexes + [Some(rows)], seen := call.seen + [version])
    ensures forall i: nat :: i < |merged.indexes| ==> GoodIndex(c, s, merged, i)
    ensures var all := MergeAll(call.matches, Found(rows, call.request.keys));
            && (all.None? ==> Overflows(SeenRows(c, merged), call.request.keys))
            && (all.Some? ==> TracksAll(all.value, SeenRows(c, merged), call.request.keys))
  {
    var more := c.contents(call.request.files[|call.seen|], version);
    SeenRowsGrow(c, call, Some(rows), version, merged);
    FoundTracks(rows, more, call.request.keys);
    MergeAllTracks(call.matches, Found(rows, call.request.keys), call.request.keys, SeenRows(c, call), more);
    forall i: nat | i < |merged.indexes| ensures GoodIndex(c, s, merged, i) {
      assert i < |call.indexes| ==> GoodIndex(c, s, call, i);
    }
  }

  lemma MergeFileOk(c: Config, s: System, id: nat)
    requires Inv(c, s) && Enabled(c, s, MergeFile(id))
    ensures Inv(c, Next(c, s, MergeFile(id)))
  {
    var call, t := s.calls[id], s.base.threads[id];
    var rows := s.base.state.indexes[t.index.value].rows;
    var merged := call.(asked := false, indexes := call.indexes + [Some(rows)], seen := call.seen + [t.fingerprint]);
    AtUsedFile(c, s, id);
    FileMerged(c, s.base, call, rows, t.fingerprint, merged);
    var base := TR.Next(c, s.base, TR.Release(id));
    match MergeAll(call.matches, Found(rows, call.request.keys))
    case None => TooManyOk(c, s, base, id, merged);
    case Some(matches) => MergedCallOk(c, s, base, id, merged, matches);
  }

  /** A thread that uses an index is at the file of its call, and the index is that of the file. */
  lemma AtUsedFile(c: Config, s: System, id: nat)
    requires Inv(c, s) && Enabled(c, s, MergeFile(id))
    ensures var call, t := s.calls[id], s.base.threads[id];
            && CallOk(c, s.base, call) && |call.seen| < |call.request.files| && t.path == call.request.files[|call.seen|]
            && call.request.since[|call.seen|] <= t.fingerprint <= TR.Version(s.base, t.path)
            && Indexes(s.base.state.indexes[t.index.value].rows, c.contents(t.path, t.fingerprint))
  {
    assert LookupOk(c, s, id);
    TR.UsedIndexIsTheFile(c, s.base, id);
  }

  lemma MergedCallOk(c: Config, s: System, base: TR.System, id: nat, merged: Call, matches: seq<Match>)
    requires Inv(c, s) && TR.Enabled(c, s.base, TR.Release(id)) && base == TR.Next(c, s.base, TR.Release(id)) && id < |s.calls|
    requires merged.Active? && |merged.indexes| == |merged.seen| <= |merged.request.files| == |merged.request.since|
    requires forall i: nat :: i < |merged.request.files| ==> StartedBefore(s.base, merged.request, i)
    requires forall i: nat :: i < |merged.indexes| ==> GoodIndex(c, s.base, merged, i)
    requires TracksAll(matches, SeenRows(c, merged), merged.request.keys)
    ensures Inv(c, WithCall(s, base, id, merged.(matches := matches)))
  {
    TR.StepKeepsInv(c, s.base, TR.Release(id));
    MergedOk(c, s.base, base, merged, matches);
    OwnStepOk(c, s, WithCall(s, base, id, merged.(matches := matches)), id);
  }

  lemma MergedOk(c: Config, s: TR.System, r: TR.System, merged: Call, matches: seq<Match>)
    requires merged.Active? && |merged.indexes| == |merged.seen| <= |merged.request.files| == |merged.request.since|
    requires forall i: nat :: i < |merged.request.files| ==> StartedBefore(s, merged.request, i)
    requires forall i: nat :: i < |merged.indexes| ==> GoodIndex(c, s, merged, i)
    requires TracksAll(matches, SeenRows(c, merged), merged.request.keys) && r.versions == s.versions
    ensures CallOk(c, r, merged.(matches := matches))
  {
    var next := merged.(matches := matches);
    forall i: nat | i < |next.request.files| ensures StartedBefore(r, next.request, i) {
      assert StartedBefore(s, merged.request, i);
    }
    forall i: nat | i < |next.indexes| ensures GoodIndex(c, r, next, i) {
      assert GoodIndex(c, s, merged, i);
    }
  }

  /** Too many rows in the indexed files are too many rows. */
  lemma TooManyOk(c: Config, s: System, base: TR.System, id: nat, merged: Call)
    requires Inv(c, s) && TR.Enabled(c, s.base, TR.Release(id)) && base == TR.Next(c, s.base, TR.Release(id)) && id < |s.calls|
    requires merged.Active? && |merged.indexes| == |merged.seen| <= |merged.request.files| == |merged.request.since|
    requires forall i: nat :: i < |merged.request.files| ==> StartedBefore(s.base, merged.request, i)
    requires forall i: nat :: i < |merged.indexes| ==> GoodIndex(c, s.base, merged, i)
    requires Overflows(SeenRows(c, merged), merged.request.keys)
    ensures Inv(c, WithCall(s, base, id, Returned(merged.request, SeenNow(s.base, merged), TooMany)))
  {
    var r := WithCall(s, base, id, Returned(merged.request, SeenNow(s.base, merged), TooMany));
    var files, n := merged.request.files, |merged.seen|;
    var contents := ContentsAt(c, files, SeenNow(s.base, merged));
    var indexes := merged.indexes + seq(|files| - n, _ => None);
    SeenRowsAre(c, s.base, merged, indexes);
    OverflowGrows(contents, indexes, n, merged.request.keys);
    TR.StepKeepsInv(c, s.base, TR.Release(id));
    forall i: nat | i < |files| ensures SeenDuring(base, merged.request, SeenNow(s.base, merged), i) {
      assert StartedBefore(s.base, merged.request, i);
      assert i < n ==> GoodIndex(c, s.base, merged, i);
    }
    OwnStepOk(c, s, r, id);
  }

  lemma PassOk(c: Config, s: System, id: nat)
    requires Inv(c, s) && Enabled(c, s, Pass(id))
    ensures Inv(c, Next(c, s, Pass(id)))
  {
    var call, r := s.calls[id], Next(c, s, Pass(id));
    assert LookupOk(c, s, id);
    SeenRowsGrow(c, call, None, 0, r.calls[id]);
    assert SeenRows(c, r.calls[id]) == SeenRows(c, call);
    forall i: nat | i < |r.calls[id].indexes| ensures GoodIndex(c, s.base, r.calls[id], i) {
      assert i < |call.indexes| ==> GoodIndex(c, s.base, call, i);
    }
    MergedOk(c, s.base, s.base, r.calls[id], call.matches);
    OwnStepOk(c, s, r, id);
  }

  /** A call that has gone through all files returns what a plain scan would. */
  lemma EndOk(c: Config, s: System, id: nat, result: Result)
    requires Inv(c, s) && IsBetween(s, id) && |s.calls[id].seen| == |s.calls[id].request.files|
    requires !result.Threw?
    requires var call := s.calls[id];
             var rows := SeenRows(c, call) + QueriedRows(c, s.base, call);
             && (result.TooMany? <==> Overflows(rows, call.request.keys))
             && (result.Matches? ==> TracksAll(result.matches, rows, call.request.keys))
    ensures Inv(c, WithCall(s, s.base, id, Returned(s.calls[id].request, SeenNow(s.base, s.calls[id]), result)))
  {
    var call := s.calls[id];
    assert LookupOk(c, s, id);
    var contents := ContentsAt(c, call.request.files, SeenNow(s.base, call));
    SeenRowsAre(c, s.base, call, call.indexes);
    AgreesOnAll(contents, call.indexes, call.request.keys, if result.Matches? then Some(result.matches) else None);
    SeenNowDuring(c, s.base, call);
    OwnStepOk(c, s, WithCall(s, s.base, id, Returned(call.request, SeenNow(s.base, call), result)), id);
  }

  lemma QueryOk(c: Config, s: System, id: nat)
    requires Inv(c, s) && Enabled(c, s, Query(id))
    ensures Inv(c, Next(c, s, Query(id)))
  {
    var call := s.calls[id];
    assert LookupOk(c, s, id);
    var more := QueriedRows(c, s.base, call);
    AnswersTrack(more, call.request.keys);
    MergeAllTracks(call.matches, Answers(more, call.request.keys), call.request.keys, SeenRows(c, call), more);
    EndOk(c, s, id, Next(c, s, Query(id)).calls[id].result);
  }

  lemma {:induction false} NothingQueried(contents: seq<seq<RawRow>>, indexes: seq<Option<seq<IndexRow>>>, n: nat)
    requires n <= |contents| == |indexes| && forall i :: 0 <= i < |indexes| ==> indexes[i].Some?
    ensures PartRows(contents, indexes, n, false) == []
  {
    if n > 0 {
      NothingQueried(contents, indexes, n - 1);
    }
  }

  lemma ReturnOk(c: Config, s: System, id: nat)
    requires Inv(c, s) && Enabled(c, s, Return(id))
    ensures Inv(c, Next(c, s, Return(id)))
  {
    var call := s.calls[id];
    assert LookupOk(c, s, id);
    NothingQueried(ContentsAt(c, call.request.files, SeenNow(s.base, call)), call.indexes, |call.indexes|);
    assert SeenRows(c, call) + QueriedRows(c, s.base, call) == SeenRows(c, call);
    NoOverflow(call.matches, SeenRows(c, call), call.request.keys);
    EndOk(c, s, id, Matches(call.matches));
  }

  lemma StepKeepsInv(c: Config, s: System, step: Step)
    requires Inv(c, s) && Enabled(c, s, step)
    ensures Inv(c, Next(c, s, step))
  {
    match step
    case Inner(inner) => InnerOk(c, s, inner);
    case Begin(id, files, keys, lance) => BeginOk(c, s, id, files, keys, lance);
    case MergeFile(id) => MergeFileOk(c, s, id);
    case Pass(id) => PassOk(c, s, id);
    case Query(id) => QueryOk(c, s, id);
    case Return(id) => ReturnOk(c, s, id);
    case Interrupt(id) => OwnStepOk(c, s, Next(c, s, step), id);
  }

  lemma {:induction false} RunKeepsInv(c: Config, states: seq<System>, steps: seq<Step>, k: nat)
    requires IsRun(c, states, steps) && k <= |steps|
    ensures Inv(c, states[k])
  {
    if k == 0 {
      TR.StartIsOk(c, states[0].base);
    } else {
      RunKeepsInv(c, states, steps, k - 1);
      assert StepAt(c, states, steps, k - 1);
      StepKeepsInv(c, states[k - 1], steps[k - 1]);
    }
  }

  // What every run guarantees ------------------------------------------------------------------------

  /** Call `id` is under way in all the states after step j, which began it, up to state k. */
  ghost predicate BegunAt(states: seq<System>, steps: seq<Step>, id: nat, j: nat, k: nat, request: Request) {
    && j < k < |states| && j < |steps| && steps[j] == Begin(id, request.files, request.keys, request.lance)
    && request.since == Versions(states[j].base, request.files)
    && forall m: nat :: j < m <= k ==> UnderWay(states[m], id, request)
  }

  ghost predicate UnderWay(s: System, id: nat, request: Request) {
    id < |s.calls| && s.calls[id].Active? && s.calls[id].request == request
  }

  /** A call under way has kept its request, or has just begun. */
  lemma CallGoesOn(c: Config, states: seq<System>, steps: seq<Step>, id: nat, k: nat)
    requires IsRun(c, states, steps) && k < |steps| && id < |states[k + 1].calls| && states[k + 1].calls[id].Active?
    ensures var request := states[k + 1].calls[id].request;
            || UnderWay(states[k], id, request)
            || (steps[k] == Begin(id, request.files, request.keys, request.lance)
                && request.since == Versions(states[k].base, request.files))
  {
    assert StepAt(c, states, steps, k);
  }

  lemma {:induction false} CallHasBegun(c: Config, states: seq<System>, steps: seq<Step>, id: nat, k: nat) returns (j: nat)
    requires IsRun(c, states, steps) && k < |states| && id < |states[k].calls| && states[k].calls[id].Active?
    ensures BegunAt(states, steps, id, j, k, states[k].calls[id].request)
  {
    assert k > 0;
    var request := states[k].calls[id].request;
    CallGoesOn(c, states, steps, id, k - 1);
    if UnderWay(states[k - 1], id, request) {
      j := CallHasBegun(c, states, steps, id, k - 1);
      forall m: nat | j < m <= k ensures UnderWay(states[m], id, request) {
        assert m < k ==> UnderWay(states[m], id, states[k - 1].calls[id].request);
      }
    } else {
      j := k - 1;
    }
  }

  /** Whatever else goes on: a lookup that returns between its beginning, in state j, and its end, in state k + 1, and
      is not aborted agrees with a plain scan of all its files, each as at some moment in between. */
  lemma LookupIsAScan(c: Config, states: seq<System>, steps: seq<Step>, id: nat, k: nat) returns (j: nat)
    requires IsRun(c, states, steps) && k < |steps| && id < |states[k].calls| && states[k].calls[id].Active?
    requires id < |states[k + 1].calls| && states[k + 1].calls[id].Returned? && !states[k + 1].calls[id].result.Threw?
    ensures var call := states[k + 1].calls[id];
            && BegunAt(states, steps, id, j, k, call.request)
            && WithinCall(states[j].base, states[k + 1].base, call.request.files, call.seen)
            && IsScan(call.result, AllRows(ContentsAt(c, call.request.files, call.seen), |call.seen|), call.request.keys)
  {
    var call := states[k + 1].calls[id];
    RunKeepsInv(c, states, steps, k + 1);
    assert LookupOk(c, states[k + 1], id);
    CallEnds(c, states, steps, id, k);
    j := CallHasBegun(c, states, steps, id, k);
    forall i: nat | i < |call.seen| ensures call.request.since[i] <= call.seen[i] <= TR.Version(states[k + 1].base, call.request.files[i]) {
      assert SeenDuring(states[k + 1].base, call.request, call.seen, i);
    }
  }

  /** Every file was seen as at a version it had from state s to state r. */
  ghost predicate WithinCall(s: TR.System, r: TR.System, files: seq<nat>, seen: seq<nat>) {
    |files| == |seen| && forall i :: 0 <= i < |seen| ==> TR.Version(s, files[i]) <= seen[i] <= TR.Version(r, files[i])
  }

  lemma CallEnds(c: Config, states: seq<System>, steps: seq<Step>, id: nat, k: nat)
    requires IsRun(c, states, steps) && k < |steps| && id < |states[k].calls| && states[k].calls[id].Active?
    requires id < |states[k + 1].calls| && states[k + 1].calls[id].Returned?
    ensures states[k + 1].calls[id].request == states[k].calls[id].request
  {
    assert StepAt(c, states, steps, k);
  }

  /** If none of its files has been replaced meanwhile, it agrees with a plain scan of their current contents: too many
      rows if and only if the scan has too many, and otherwise for every key the same count, and the same timestamp
      for a single row. */
  lemma LookupAgreesWithScan(c: Config, states: seq<System>, steps: seq<Step>, id: nat, j: nat, k: nat)
    requires IsRun(c, states, steps) && k < |steps| && id < |states[k].calls| && states[k].calls[id].Active?
    requires id < |states[k + 1].calls| && states[k + 1].calls[id].Returned? && !states[k + 1].calls[id].result.Threw?
    requires BegunAt(states, steps, id, j, k, states[k].calls[id].request)
    requires var files := states[k].calls[id].request.files;
             Versions(states[j].base, files) == Versions(states[k + 1].base, files)
    ensures var request, s := states[k].calls[id].request, states[k + 1].base;
            IsScan(states[k + 1].calls[id].result,
                   AllRows(ContentsAt(c, request.files, Versions(s, request.files)), |request.files|), request.keys)
  {
    var request, s, call := states[k].calls[id].request, states[k + 1].base, states[k + 1].calls[id];
    RunKeepsInv(c, states, steps, k + 1);
    assert LookupOk(c, states[k + 1], id);
    CallEnds(c, states, steps, id, k);
    var now := Versions(s, request.files);
    forall i: nat | i < |now| ensures call.seen[i] == now[i] {
      assert SeenDuring(s, request, call.seen, i);
    }
    assert call.seen == now;
  }
}
