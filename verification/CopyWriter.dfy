/** LerobotCopyGlobalData: rows arrive in chunks, are grouped into episodes and stored when the episode
    is over. Encoding, statistics and Parquet writing are taken to succeed. */
module CopyWriter {
  import opened Collections
  import opened CopyRows
  import opened FileSeries
  import Q = CopyFiles
  import opened CopyDataset
  import opened EpisodeFiles

  // Facts about the reference definitions that the loops need -------------------------------------------

  /** All rows from..n belong to one episode that starts at row `from`. */
  ghost predicate OneEpisode(rows: seq<Row>, from: nat, n: nat) {
    && from < |rows| && from <= n <= |rows| && StartsEpisode(rows, from)
    && forall i :: from <= i < n ==> EpisodeOf(rows[i]) == EpisodeOf(rows[from])
  }

  lemma OutOfEpisode(rows: seq<Row>, from: nat, n: nat, i: nat)
    requires OneEpisode(rows, from, n) && from <= i < n
    ensures EpisodeStart(rows, i) == from
  {
    StartIsUnique(rows, i, from);
  }

  lemma FinishedStep(rows: seq<Row>, n: nat, fps: nat)
    requires 1 < n <= |rows| && fps > 0
    ensures Finished(rows, n, fps) == if StartsEpisode(rows, n - 1) then Episodes(rows, n - 1, fps) else Finished(rows, n - 1, fps)
  {
  }

  lemma {:induction false} FinishedBefore(rows: seq<Row>, from: nat, n: nat, fps: nat)
    requires OneEpisode(rows, from, n) && from < n && fps > 0
    ensures Finished(rows, n, fps) == Episodes(rows, from, fps)
  {
    if n > 1 {
      FinishedStep(rows, n, fps);
    }
    if n > from + 1 {
      FinishedBefore(rows, from, n - 1, fps);
    }
  }

  lemma LastEpisodeIs(rows: seq<Row>, from: nat, n: nat, fps: nat)
    requires from < n <= |rows| && fps > 0 && EpisodeStart(rows, n - 1) == from
    ensures Episodes(rows, n, fps) == Finished(rows, n, fps) + [EpisodeOver(rows, from, n, fps)]
  {
  }

  lemma EpisodesOneMore(rows: seq<Row>, from: nat, n: nat, fps: nat)
    requires OneEpisode(rows, from, n) && from < n && fps > 0
    ensures Episodes(rows, n, fps) == Episodes(rows, from, fps) + [EpisodeOver(rows, from, n, fps)]
  {
    FinishedBefore(rows, from, n, fps);
    OutOfEpisode(rows, from, n, n - 1);
    LastEpisodeIs(rows, from, n, fps);
  }

  lemma IndexInGrows(tasks: seq<nat>, task: nat, more: nat)
    requires task in tasks
    ensures IndexIn(tasks + [more], task) == IndexIn(tasks, task)
  {
    if tasks[0] != task {
      assert (tasks + [more])[1..] == tasks[1..] + [more];
      IndexInGrows(tasks[1..], task, more);
    }
  }

  lemma IndexOfNew(tasks: seq<nat>, task: nat)
    requires task !in tasks
    ensures IndexIn(tasks + [task], task) == |tasks|
  {
    if tasks != [] {
      assert (tasks + [task])[1..] == tasks[1..] + [task];
      IndexOfNew(tasks[1..], task);
    }
  }

  /** The chunk is the part of the stream that starts at row n. */
  ghost predicate IsChunk(chunk: seq<Row>, rows: seq<Row>, n: nat) {
    n + |chunk| <= |rows| && forall i :: n <= i < n + |chunk| ==> rows[i] == chunk[i - n]
  }

  predicate HasTask(rows: seq<Row>, i: int) {
    0 <= i < |rows| && rows[i].task.Some?
  }

  ghost predicate InEpisode(rows: seq<Row>, i: int, from: nat, episode: int) {
    0 <= i < |rows| && EpisodeStart(rows, i) == from && EpisodeOf(rows[i]) == episode
  }

  /** Rows n..m are of the episode that starts at row `from`. */
  ghost predicate Continues(rows: seq<Row>, n: nat, m: nat, from: nat, episode: int) {
    from <= n <= m <= |rows| && forall i :: n <= i < m ==> InEpisode(rows, i, from, episode)
  }

  /** Rows n..m carry the episode and have their user-defined values. */
  ghost predicate IsRun(rows: seq<Row>, n: nat, m: nat, episode: int) {
    n <= m <= |rows| && forall i :: n <= i < m ==> rows[i].episode == Some(episode) && rows[i].user.Some?
  }

  lemma RunInEpisode(rows: seq<Row>, from: nat, n: nat, m: nat, i: nat)
    requires OneEpisode(rows, from, n) && IsRun(rows, n, m, EpisodeOf(rows[from])) && n <= i < m
    ensures EpisodeStart(rows, i) == from
  {
    assert OneEpisode(rows, from, i + 1);
    OutOfEpisode(rows, from, i + 1, i);
  }

  lemma RunAccepted(rows: seq<Row>, from: nat, n: nat, m: nat)
    requires Accepted(rows, n) && OneEpisode(rows, from, n) && Follows(rows, from)
    requires IsRun(rows, n, m, EpisodeOf(rows[from])) && forall i :: n <= i < m ==> HasTask(rows, i)
    ensures Accepted(rows, m) && OneEpisode(rows, from, m)
  {
    forall i | n <= i < m ensures RowOk(rows, i) {
      assert HasTask(rows, i);
      if i > from {
        assert EpisodeOf(rows[i - 1]) == EpisodeOf(rows[from]);
      }
    }
  }

  lemma LongerIsNotAccepted(rows: seq<Row>, n: nat, m: nat)
    requires n <= m <= |rows| && !Accepted(rows, n)
    ensures !Accepted(rows, m)
  {
  }

  lemma NullUserValue(chunk: seq<Row>, rows: seq<Row>, n: nat)
    requires IsChunk(chunk, rows, n) && !forall i :: 0 <= i < |chunk| ==> chunk[i].user.Some?
    ensures !Accepted(rows, n + |chunk|)
  {
    var i :| 0 <= i < |chunk| && !chunk[i].user.Some?;
    assert rows[n + i] == chunk[i] && !RowOk(rows, n + i);
  }

  lemma RunIsRun(chunk: seq<Row>, offset: nat, end: nat, rows: seq<Row>, n: nat, episode: int)
    requires IsChunk(chunk, rows, n) && offset <= end <= |chunk|
    requires forall i :: offset <= i < end ==> chunk[i].episode == Some(episode)
    requires forall i :: 0 <= i < |chunk| ==> chunk[i].user.Some?
    ensures IsRun(rows, n + offset, n + end, episode)
  {
    forall i | n + offset <= i < n + end ensures rows[i].episode == Some(episode) && rows[i].user.Some? {
      assert rows[i] == chunk[i - n];
    }
  }

  lemma NotAccepted(rows: seq<Row>, n: nat, m: nat)
    requires n <= m <= |rows| && !forall i :: n <= i < m ==> HasTask(rows, i)
    ensures !Accepted(rows, m)
  {
    var i :| n <= i < m && !HasTask(rows, i);
    assert !RowOk(rows, i);
  }

  lemma {:induction false} OutRowsJoin(rows: seq<Row>, from: nat, mid: nat, to: nat, fps: nat)
    requires from <= mid <= to <= |rows| && fps > 0
    ensures OutRows(rows, from, mid, fps) + OutRows(rows, mid, to, fps) == OutRows(rows, from, to, fps)
  {
    if mid < to {
      OutRowsJoin(rows, from, mid, to - 1, fps);
    }
  }

  ghost predicate Numbers(taskIndexes: map<nat, nat>, tasks: seq<nat>) {
    && (forall task :: task in taskIndexes <==> task in tasks)
    && (forall task :: task in taskIndexes ==> taskIndexes[task] == IndexIn(tasks, task))
  }

  lemma NumbersOneMore(taskIndexes: map<nat, nat>, tasks: seq<nat>, task: nat)
    requires Numbers(taskIndexes, tasks) && task !in tasks
    ensures Numbers(taskIndexes[task := |tasks|], tasks + [task])
  {
    IndexOfNew(tasks, task);
    forall t | t in taskIndexes ensures IndexIn(tasks + [task], t) == taskIndexes[t] {
      IndexInGrows(tasks, t, task);
    }
  }

  function Joined(chunks: seq<seq<Row>>, k: nat): seq<Row>
    requires k <= |chunks|
  {
    if k == 0 then [] else Joined(chunks, k - 1) + chunks[k - 1]
  }

  lemma {:induction false} JoinedGrows(chunks: seq<seq<Row>>, k: nat, m: nat)
    requires k <= m <= |chunks|
    ensures |Joined(chunks, k)| <= |Joined(chunks, m)|
    ensures forall i :: 0 <= i < |Joined(chunks, k)| ==> Joined(chunks, m)[i] == Joined(chunks, k)[i]
  {
    if k < m {
      JoinedGrows(chunks, k, m - 1);
    }
  }

  lemma JoinedIsLonger(chunks: seq<seq<Row>>, k: nat)
    requires k <= |chunks|
    ensures |Joined(chunks, k)| <= |Joined(chunks, |chunks|)|
  {
    JoinedGrows(chunks, k, |chunks|);
  }

  lemma ChunkInJoined(chunks: seq<seq<Row>>, k: nat)
    requires k < |chunks|
    ensures IsChunk(chunks[k], Joined(chunks, |chunks|), |Joined(chunks, k)|)
    ensures |Joined(chunks, k + 1)| == |Joined(chunks, k)| + |chunks[k]|
  {
    JoinedGrows(chunks, k + 1, |chunks|);
    var n, rows := |Joined(chunks, k)|, Joined(chunks, |chunks|);
    forall i | n <= i < n + |chunks[k]| ensures rows[i] == chunks[k][i - n] {
      assert rows[i] == Joined(chunks, k + 1)[i];
    }
  }

  /** The reference definitions as function values, which proofs look into only where they must. */
  datatype Spec = Spec(
    fps: nat, tasks: (seq<Row>, nat, nat) -> seq<nat>, outRows: (seq<Row>, nat, nat) -> seq<OutRow>,
    episodes: (seq<Row>, nat) -> seq<Episode>)
  {
    ghost predicate TasksAt(rows: seq<Row>, from: nat, to: nat) {
      from <= to <= |rows| ==> tasks(rows, from, to) == Tasks(rows, from, to)
    }

    ghost predicate OutRowsAt(rows: seq<Row>, from: nat, to: nat) {
      fps > 0 && from <= to <= |rows| ==> outRows(rows, from, to) == OutRows(rows, from, to, fps)
    }

    ghost predicate EpisodesAt(rows: seq<Row>, n: nat) {
      fps > 0 && n <= |rows| ==> episodes(rows, n) == Episodes(rows, n, fps)
    }

    ghost predicate Valid() {
      && fps > 0
      && (forall rows, from, to :: TasksAt(rows, from, to))
      && (forall rows, from, to :: OutRowsAt(rows, from, to))
      && (forall rows, n :: EpisodesAt(rows, n))
    }
  }

  ghost function SpecOf(fps: nat): (spec: Spec)
    requires fps > 0
    ensures spec.Valid() && spec.fps == fps
  {
    Spec(fps, (rows: seq<Row>, from: nat, to: nat) => if from <= to <= |rows| then Tasks(rows, from, to) else [],
         (rows: seq<Row>, from: nat, to: nat) => if from <= to <= |rows| then OutRows(rows, from, to, fps) else [],
         (rows: seq<Row>, n: nat) => if n <= |rows| then Episodes(rows, n, fps) else [])
  }

  class Writer {
    const fps: nat
    const files: FileWriters
    const dataSize: nat -> nat
    const metaSize: nat -> nat
    ghost const spec: Spec

    var tasks: seq<nat>
    var taskIndexes: map<nat, nat>
    var totalEpisodes: nat
    var totalFrames: nat
    var currentEpisode: int
    var currentFrames: nat
    var currentTasks: seq<nat>
    var currentData: seq<OutRow>
    var hasCurrent: bool

    /** The files hold the episodes of the first n rows. */
    ghost predicate Stored(rows: seq<Row>, n: nat)
      reads this, files
    {
      files.Valid() && files.dataStart <= n && files.episodes == spec.episodes(rows, n)
    }

    ghost predicate TasksOk(rows: seq<Row>, n: nat)
      reads this
    {
      tasks == spec.tasks(rows, 0, n) && Numbers(taskIndexes, tasks)
    }

    /** Between episodes, with n rows seen. */
    ghost predicate Between(rows: seq<Row>, n: nat)
      reads this, files
    {
      && spec.Valid() && spec.fps == fps && Accepted(rows, n) && !hasCurrent && totalFrames == n
      && totalEpisodes == (if n == 0 then 0 else EpisodeOf(rows[n - 1]) + 1)
      && TasksOk(rows, n) && Stored(rows, n)
    }

    /** Rows up to n are accepted, and those from totalFrames on are of the current episode. */
    ghost predicate Current(rows: seq<Row>, n: nat)
      reads this
    {
      && Accepted(rows, n) && OneEpisode(rows, totalFrames, n) && Follows(rows, totalFrames)
      && currentEpisode == EpisodeOf(rows[totalFrames])
    }

    /** In the episode that starts at row totalFrames, with n rows seen. */
    ghost predicate Building(rows: seq<Row>, n: nat)
      reads this, files
    {
      && spec.Valid() && spec.fps == fps && hasCurrent && Current(rows, n)
      && totalEpisodes == currentEpisode && currentFrames == n - totalFrames
      && currentTasks == spec.tasks(rows, totalFrames, n)
      && currentData == spec.outRows(rows, totalFrames, n)
      && TasksOk(rows, n) && Stored(rows, totalFrames)
    }

    /** After n rows, however they were cut into chunks. */
    ghost predicate At(rows: seq<Row>, n: nat)
      reads this, files
    {
      if n == 0 then Between(rows, 0) else Building(rows, n) && totalFrames < n
    }

    constructor (fps: nat, limits: Q.Limits, dataSize: nat -> nat, metaSize: nat -> nat, ghost rows: seq<Row>)
      requires fps > 0 && limits.chunkSize > 0
      ensures At(rows, 0) && this.fps == fps && fresh(files) && files.limits == limits
    {
      this.fps, this.dataSize, this.metaSize := fps, dataSize, metaSize;
      files := new FileWriters(limits);
      tasks, taskIndexes, totalEpisodes, totalFrames := [], map[], 0, 0;
      currentEpisode, currentFrames, currentTasks, currentData, hasCurrent := -1, 0, [], [], false;
      spec := SpecOf(fps);
      new;
      assert spec.TasksAt(rows, 0, 0) && spec.EpisodesAt(rows, 0);
    }

    method StartEpisode(episode: int, ghost rows: seq<Row>, ghost n: nat) returns (ok: bool)
      requires Between(rows, n) && n < |rows| && rows[n].episode == Some(episode)
      requires n > 0 ==> EpisodeOf(rows[n - 1]) != episode
      modifies this`currentEpisode, this`currentFrames, this`currentTasks, this`currentData, this`hasCurrent
      ensures ok <==> Follows(rows, n)
      ensures ok ==> Building(rows, n) && totalFrames == n && currentEpisode == episode
    {
      if episode != totalEpisodes {
        return false;
      }
      currentEpisode, currentFrames, currentTasks, currentData, hasCurrent := episode, 0, [], [], true;
      assert spec.TasksAt(rows, n, n) && spec.OutRowsAt(rows, n, n);
      ok := true;
    }

    method GetTaskIndex(task: nat) returns (index: nat)
      requires Numbers(taskIndexes, tasks)
      modifies this`tasks, this`taskIndexes
      ensures Numbers(taskIndexes, tasks) && tasks == AddTask(old(tasks), task) && index == IndexIn(tasks, task)
    {
      if task in taskIndexes {
        return taskIndexes[task];
      }
      NumbersOneMore(taskIndexes, tasks, task);
      IndexOfNew(tasks, task);
      index := |tasks|;
      taskIndexes := taskIndexes[task := index];
      tasks := tasks + [task];
    }

    method AddEpisodeTask(task: nat)
      modifies this`currentTasks
      ensures currentTasks == AddTask(old(currentTasks), task)
    {
      if task !in currentTasks {
        currentTasks := currentTasks + [task];
      }
    }

    /** One row of AppendRun. */
    method BuildRow(value: Row, frameIndex: nat) returns (ok: bool, row: OutRow)
      requires Numbers(taskIndexes, tasks) && fps > 0
      modifies this`tasks, this`taskIndexes, this`currentTasks
      ensures ok <==> value.task.Some?
      ensures ok ==> Numbers(taskIndexes, tasks) && tasks == AddTask(old(tasks), TaskOf(value))
      ensures ok ==> currentTasks == AddTask(old(currentTasks), TaskOf(value))
      ensures ok ==> row == OutRow(if value.user.Some? then value.user.value else 0, frameIndex, currentEpisode,
                                   totalFrames + frameIndex, IndexIn(tasks, TaskOf(value)), frameIndex as real / fps as real)
    {
      row := OutRow(0, 0, 0, 0, 0, 0.0);
      if value.task.None? {
        return false, row;
      }
      var task := value.task.value;
      var taskIndex := GetTaskIndex(task);
      AddEpisodeTask(task);
      var globalIndex := totalFrames + frameIndex;
      row := OutRow(if value.user.Some? then value.user.value else 0, frameIndex, currentEpisode, globalIndex, taskIndex,
                    frameIndex as real / fps as real);
      ok := true;
    }

    /** The part of the state that appending rows changes. */
    ghost predicate Grown(rows: seq<Row>, n: nat)
      reads this
    {
      TasksOk(rows, n) && currentTasks == spec.tasks(rows, totalFrames, n)
    }

    lemma OneRowMore(rows: seq<Row>, n: nat, i: nat)
      requires spec.Valid() && totalFrames <= n <= i < |rows|
      ensures spec.tasks(rows, 0, i + 1) == AddTask(spec.tasks(rows, 0, i), TaskOf(rows[i]))
      ensures spec.tasks(rows, totalFrames, i + 1) == AddTask(spec.tasks(rows, totalFrames, i), TaskOf(rows[i]))
      ensures spec.outRows(rows, n, i + 1) == spec.outRows(rows, n, i) + [Out(rows, i, spec.fps)]
    {
      assert spec.TasksAt(rows, 0, i) && spec.TasksAt(rows, 0, i + 1);
      assert spec.TasksAt(rows, totalFrames, i) && spec.TasksAt(rows, totalFrames, i + 1);
      assert spec.OutRowsAt(rows, n, i) && spec.OutRowsAt(rows, n, i + 1);
    }

    lemma OutIs(rows: seq<Row>, i: nat, index: nat)
      requires spec.Valid() && InEpisode(rows, i, totalFrames, currentEpisode)
      requires index == IndexIn(spec.tasks(rows, 0, i + 1), TaskOf(rows[i]))
      ensures Out(rows, i, spec.fps) ==
              OutRow(if rows[i].user.Some? then rows[i].user.value else 0, i - totalFrames, currentEpisode, i, index,
                     (i - totalFrames) as real / spec.fps as real)
    {
      assert spec.TasksAt(rows, 0, i + 1);
    }

    /** Row i of the stream, with the columns that are generated. */
    method BuildNext(value: Row, frameIndex: nat, ghost rows: seq<Row>, ghost n: nat, ghost i: nat)
      returns (ok: bool, out: OutRow)
      requires totalFrames <= n <= i
      requires spec.Valid() && spec.fps == fps && i < |rows| && value == rows[i] && totalFrames + frameIndex == i
      requires InEpisode(rows, i, totalFrames, currentEpisode) && Grown(rows, i)
      modifies this`tasks, this`taskIndexes, this`currentTasks
      ensures ok <==> HasTask(rows, i)
      ensures ok ==> Grown(rows, i + 1) && spec.outRows(rows, n, i + 1) == spec.outRows(rows, n, i) + [out]
    {
      OneRowMore(rows, n, i);
      ok, out := BuildRow(value, frameIndex);
      if ok {
        OutIs(rows, i, out.taskIndex);
      }
    }

    /** The rows of a run, with the columns that are generated. */
    method BuildRows(chunk: seq<Row>, offset: nat, count: nat, ghost rows: seq<Row>, ghost n: nat)
      returns (ok: bool, output: seq<OutRow>)
      requires offset <= n && IsChunk(chunk, rows, n - offset) && offset + count <= |chunk|
      requires spec.Valid() && spec.fps == fps && Continues(rows, n, n + count, totalFrames, currentEpisode) && currentFrames == n - totalFrames
      requires Grown(rows, n)
      modifies this`tasks, this`taskIndexes, this`currentTasks
      ensures ok <==> forall i :: n <= i < n + count ==> HasTask(rows, i)
      ensures ok ==> Grown(rows, n + count) && output == spec.outRows(rows, n, n + count)
    {
      output := [];
      assert spec.OutRowsAt(rows, n, n);
      for row := 0 to count
        invariant Grown(rows, n + row) && output == spec.outRows(rows, n, n + row)
        invariant forall i :: n <= i < n + row ==> HasTask(rows, i)
      {
        ghost var i := n + row;
        assert chunk[offset + row] == rows[i] && InEpisode(rows, i, totalFrames, currentEpisode);
        var built, out := BuildNext(chunk[offset + row], currentFrames + row, rows, n, i);
        if !built {
          return false, [];
        }
        output := output + [out];
      }
      ok := true;
    }

    /** Append count rows of the chunk from offset on, all of the current episode. */
    method AppendRun(chunk: seq<Row>, offset: nat, count: nat, ghost rows: seq<Row>, ghost n: nat) returns (ok: bool)
      requires offset <= n && IsChunk(chunk, rows, n - offset) && offset + count <= |chunk|
      requires Building(rows, n) && IsRun(rows, n, n + count, currentEpisode)
      modifies this`tasks, this`taskIndexes, this`currentTasks, this`currentData, this`currentFrames
      ensures ok ==> Building(rows, n + count)
      ensures !ok ==> !Accepted(rows, n + count)
    {
      forall i: nat | n <= i < n + count ensures InEpisode(rows, i, totalFrames, currentEpisode) {
        RunInEpisode(rows, totalFrames, n, n + count, i);
      }
      var built, output := BuildRows(chunk, offset, count, rows, n);
      if !built {
        NotAccepted(rows, n, n + count);
        return false;
      }
      RunAccepted(rows, totalFrames, n, n + count);
      OutRowsGrow(rows, totalFrames, n, n + count);
      currentData := currentData + output;
      currentFrames := currentFrames + count;
      ok := true;
    }

    lemma OutRowsGrow(rows: seq<Row>, from: nat, n: nat, m: nat)
      requires spec.Valid() && from <= n <= m <= |rows|
      ensures spec.outRows(rows, from, n) + spec.outRows(rows, n, m) == spec.outRows(rows, from, m)
    {
      assert spec.OutRowsAt(rows, from, n) && spec.OutRowsAt(rows, n, m) && spec.OutRowsAt(rows, from, m);
      OutRowsJoin(rows, from, n, m, spec.fps);
    }

    /** The current episode is over: store it. */
    method FinishEpisode(ghost rows: seq<Row>, ghost n: nat)
      requires Building(rows, n) && totalFrames < n
      modifies this`totalFrames, this`totalEpisodes, this`hasCurrent, files
      ensures Between(rows, n)
    {
      var e := Episode(currentEpisode, totalFrames, totalFrames + currentFrames, currentTasks, currentData);
      EpisodeIsOver(rows, n, e);
      files.StoreEpisode(e, dataSize(totalEpisodes), metaSize(totalEpisodes));
      totalFrames := totalFrames + currentFrames;
      totalEpisodes := totalEpisodes + 1;
      hasCurrent := false;
    }

    lemma EpisodeIsOver(rows: seq<Row>, n: nat, e: Episode)
      requires Building(rows, n) && totalFrames < n
      requires e == Episode(currentEpisode, totalFrames, n, currentTasks, currentData)
      ensures spec.episodes(rows, n) == spec.episodes(rows, totalFrames) + [e]
      ensures currentEpisode == EpisodeOf(rows[n - 1])
    {
      assert spec.TasksAt(rows, totalFrames, n) && spec.OutRowsAt(rows, totalFrames, n);
      assert spec.EpisodesAt(rows, n) && spec.EpisodesAt(rows, totalFrames);
      EpisodesOneMore(rows, totalFrames, n, fps);
    }

    /** The next run of rows of one episode. */
    method ProcessRun(chunk: seq<Row>, offset: nat, ghost rows: seq<Row>, ghost n: nat) returns (ok: bool, end: nat)
      requires At(rows, n + offset) && IsChunk(chunk, rows, n) && offset < |chunk|
      requires forall i :: 0 <= i < |chunk| ==> chunk[i].user.Some?
      modifies this, files
      ensures ok ==> offset < end <= |chunk| && At(rows, n + end)
      ensures !ok ==> !Accepted(rows, n + |chunk|)
    {
      end := offset;
      ghost var m := n + offset;
      assert rows[m] == chunk[offset];
      ok := BeginRun(chunk[offset], rows, m);
      if !ok {
        assert !RowOk(rows, m);
        return false, end;
      }
      end := RunEnd(chunk, offset, chunk[offset].episode.value);
      RunIsRun(chunk, offset, end, rows, n, currentEpisode);
      ok := AppendRun(chunk, offset, end - offset, rows, m);
      if !ok {
        LongerIsNotAccepted(rows, n + end, n + |chunk|);
      }
    }

    /** One chunk of input. */
    method Process(chunk: seq<Row>, ghost rows: seq<Row>, ghost n: nat) returns (ok: bool)
      requires At(rows, n) && IsChunk(chunk, rows, n)
      modifies this, files
      ensures ok ==> At(rows, n + |chunk|)
      ensures !ok ==> !Accepted(rows, n + |chunk|)
    {
      var complete := UserValuesComplete(chunk);
      if !complete {
        NullUserValue(chunk, rows, n);
        return false;
      }
      var offset := 0;
      while offset < |chunk|
        invariant offset <= |chunk| && At(rows, n + offset)
        decreases |chunk| - offset
      {
        ok, offset := ProcessRun(chunk, offset, rows, n);
        if !ok {
          return;
        }
      }
      ok := true;
    }

    method UserValuesComplete(chunk: seq<Row>) returns (complete: bool)
      ensures complete <==> forall i :: 0 <= i < |chunk| ==> chunk[i].user.Some?
    {
      for i := 0 to |chunk|
        invariant forall j :: 0 <= j < i ==> chunk[j].user.Some?
      {
        if chunk[i].user.None? {
          return false;
        }
      }
      complete := true;
    }

    /** First row at or after offset that is not of the episode. */
    method RunEnd(chunk: seq<Row>, offset: nat, episode: int) returns (end: nat)
      requires offset < |chunk| && chunk[offset].episode == Some(episode)
      ensures offset < end <= |chunk|
      ensures forall i :: offset <= i < end ==> chunk[i].episode == Some(episode)
    {
      end := offset + 1;
      while end < |chunk| && chunk[end].episode == Some(episode)
        invariant offset < end <= |chunk|
        invariant forall i :: offset <= i < end ==> chunk[i].episode == Some(episode)
      {
        end := end + 1;
      }
    }

    /** Go on with the current episode, or finish it and start the next one. */
    method BeginRun(row: Row, ghost rows: seq<Row>, ghost m: nat) returns (ok: bool)
      requires At(rows, m) && m < |rows| && rows[m] == row
      modifies this, files
      ensures ok <==> row.episode.Some? && Follows(rows, m)
      ensures ok ==> Building(rows, m) && row.episode == Some(currentEpisode)
    {
      if row.episode.None? {
        return false;
      }
      var episode := row.episode.value;
      if !hasCurrent {
        ok := StartEpisode(episode, rows, m);
      } else if episode != currentEpisode {
        FinishEpisode(rows, m);
        ok := StartEpisode(episode, rows, m);
      } else {
        ok := true;
      }
    }

    /** All chunks of a stream. */
    method ProcessAll(chunks: seq<seq<Row>>, ghost rows: seq<Row>) returns (ok: bool)
      requires At(rows, 0) && rows == Joined(chunks, |chunks|)
      modifies this, files
      ensures ok ==> At(rows, |rows|)
      ensures !ok ==> !Accepted(rows, |rows|)
    {
      ghost var n := 0;
      for k := 0 to |chunks|
        invariant n == |Joined(chunks, k)| && At(rows, n)
      {
        ChunkInJoined(chunks, k);
        ok := Process(chunks[k], rows, n);
        if !ok {
          JoinedIsLonger(chunks, k + 1);
          LongerIsNotAccepted(rows, n + |chunks[k]|, |rows|);
          return;
        }
        n := n + |chunks[k]|;
      }
      ok := true;
    }

    /** After the last chunk: the files hold every episode, and every metadata row has been written. */
    method Finalize(ghost rows: seq<Row>)
      requires At(rows, |rows|)
      modifies this, files
      ensures Between(rows, |rows|) && files.buffer == []
      ensures tasks == Tasks(rows, 0, |rows|) && files.episodes == Episodes(rows, |rows|, fps)
      ensures Q.FilesOk(files.State(), files.limits.chunkSize, files.episodes, files.rows)
    {
      if hasCurrent {
        FinishEpisode(rows, |rows|);
      }
      assert spec.TasksAt(rows, 0, |rows|) && spec.EpisodesAt(rows, |rows|);
      files.Finish();
      files.ValidMeans();
    }
  }

  /** COPY of a stream: the outcome depends on the rows only, not on how they come in chunks. */
  method Copy(chunks: seq<seq<Row>>, fps: nat, limits: Q.Limits, dataSize: nat -> nat, metaSize: nat -> nat)
    returns (ok: bool, writer: Writer, ghost rows: seq<Row>)
    requires fps > 0 && limits.chunkSize > 0
    ensures rows == Joined(chunks, |chunks|)
    ensures ok <==> Accepted(rows, |rows|)
    ensures ok ==>
              && writer.tasks == Tasks(rows, 0, |rows|)
              && writer.totalFrames == |rows| && writer.files.episodes == Episodes(rows, |rows|, fps)
              && writer.totalEpisodes == |writer.files.episodes| && writer.files.limits == limits
              && Q.FilesOk(writer.files.State(), writer.files.limits.chunkSize, writer.files.episodes, writer.files.rows)
              && writer.files.buffer == []
    ensures ok ==> DatasetSays(writer.files.State(), limits.chunkSize, rows, fps, writer.tasks, writer.files.rows)
  {
    rows := Joined(chunks, |chunks|);
    writer := new Writer(fps, limits, dataSize, metaSize, rows);
    ok := writer.ProcessAll(chunks, rows);
    if ok {
      writer.Finalize(rows);
      EpisodesTile(rows, |rows|, fps);
      DatasetIsWritten(writer.files.State(), limits.chunkSize, rows, fps, writer.files.rows);
    }
  }
}
