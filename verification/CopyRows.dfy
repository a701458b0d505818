/** What COPY writes for a stream of rows, stated on the whole stream: which streams are accepted, the
    generated columns, the task numbering and the episodes. */
module CopyRows {
  import opened Collections
  /** An input row: its episode, its task and its user-defined values; each may be NULL. */
  datatype Row = Row(episode: Option<int>, task: Option<nat>, user: Option<nat>)

  datatype OutRow = OutRow(user: nat, frameIndex: nat, episodeIndex: int, index: nat, taskIndex: nat, timestamp: real)

  /** An episode with its frame range, its tasks in order of first use, and its rows. */
  datatype Episode = Episode(index: int, from: nat, to: nat, tasks: seq<nat>, rows: seq<OutRow>)

  predicate Complete(row: Row) {
    row.episode.Some? && row.task.Some? && row.user.Some?
  }

  function EpisodeOf(row: Row): int {
    if row.episode.Some? then row.episode.value else -1
  }

  function TaskOf(row: Row): nat {
    if row.task.Some? then row.task.value else 0
  }

  /** Episodes are contiguous and ordered from zero. */
  predicate Follows(rows: seq<Row>, i: nat)
    requires i < |rows|
  {
    if i == 0 then EpisodeOf(rows[0]) == 0
    else EpisodeOf(rows[i]) == EpisodeOf(rows[i - 1]) || EpisodeOf(rows[i]) == EpisodeOf(rows[i - 1]) + 1
  }

  predicate RowOk(rows: seq<Row>, i: nat)
    requires i < |rows|
  {
    Complete(rows[i]) && Follows(rows, i)
  }

  /** The first n rows make a dataset: complete rows, with the episode column 0..0 1..1 2..2 and so on. */
  ghost predicate Accepted(rows: seq<Row>, n: nat) {
    n <= |rows| && forall i :: 0 <= i < n ==> RowOk(rows, i)
  }

  /** First row of the episode of row i. */
  function EpisodeStart(rows: seq<Row>, i: nat): (s: nat)
    requires i < |rows|
    ensures s <= i && EpisodeOf(rows[s]) == EpisodeOf(rows[i])
    ensures forall j :: s <= j <= i ==> EpisodeOf(rows[j]) == EpisodeOf(rows[i])
    ensures s > 0 ==> EpisodeOf(rows[s - 1]) != EpisodeOf(rows[i])
  {
    if i > 0 && EpisodeOf(rows[i - 1]) == EpisodeOf(rows[i]) then EpisodeStart(rows, i - 1) else i
  }

  function AddTask(tasks: seq<nat>, task: nat): seq<nat> {
    if task in tasks then tasks else tasks + [task]
  }

  /** Distinct tasks of the rows from..to, in order of first use. */
  function Tasks(rows: seq<Row>, from: nat, to: nat): seq<nat>
    requires from <= to <= |rows|
  {
    if from == to then [] else AddTask(Tasks(rows, from, to - 1), TaskOf(rows[to - 1]))
  }

  function IndexIn(tasks: seq<nat>, task: nat): (k: nat)
    ensures task in tasks ==> k < |tasks| && tasks[k] == task
  {
    if tasks == [] || tasks[0] == task then 0 else 1 + IndexIn(tasks[1..], task)
  }

  function TaskIndex(rows: seq<Row>, i: nat): nat
    requires i < |rows|
  {
    IndexIn(Tasks(rows, 0, i + 1), TaskOf(rows[i]))
  }

  function Out(rows: seq<Row>, i: nat, fps: nat): OutRow
    requires i < |rows| && fps > 0
  {
    var frame := i - EpisodeStart(rows, i);
    OutRow(if rows[i].user.Some? then rows[i].user.value else 0, frame, EpisodeOf(rows[i]), i, TaskIndex(rows, i),
           frame as real / fps as real)
  }

  function OutRows(rows: seq<Row>, from: nat, to: nat, fps: nat): (r: seq<OutRow>)
    requires from <= to <= |rows| && fps > 0
    ensures |r| == to - from
  {
    if from == to then [] else OutRows(rows, from, to - 1, fps) + [Out(rows, to - 1, fps)]
  }

  function EpisodeOver(rows: seq<Row>, from: nat, to: nat, fps: nat): Episode
    requires from < to <= |rows| && fps > 0
  {
    Episode(EpisodeOf(rows[from]), from, to, Tasks(rows, from, to), OutRows(rows, from, to, fps))
  }

  predicate StartsEpisode(rows: seq<Row>, i: nat)
    requires i < |rows|
  {
    i == 0 || EpisodeOf(rows[i - 1]) != EpisodeOf(rows[i])
  }

  /** The episodes that are over when row n - 1 has been seen. */
  function Finished(rows: seq<Row>, n: nat, fps: nat): seq<Episode>
    requires n <= |rows| && fps > 0
  {
    if n <= 1 then []
    else if StartsEpisode(rows, n - 1) then
      Finished(rows, n - 1, fps) + [EpisodeOver(rows, EpisodeStart(rows, n - 2), n - 1, fps)]
    else Finished(rows, n - 1, fps)
  }

  /** All episodes of n rows. */
  function Episodes(rows: seq<Row>, n: nat, fps: nat): seq<Episode>
    requires n <= |rows| && fps > 0
  {
    if n == 0 then [] else Finished(rows, n, fps) + [EpisodeOver(rows, EpisodeStart(rows, n - 1), n, fps)]
  }

  // What these definitions amount to -----------------------------------------------------------------

  lemma {:induction false} FinishedCounts(rows: seq<Row>, n: nat, fps: nat)
    requires Accepted(rows, n) && 0 < n && fps > 0
    ensures |Finished(rows, n, fps)| == EpisodeOf(rows[n - 1])
    ensures forall k :: 0 <= k < |Finished(rows, n, fps)| ==> IsEpisode(rows, n, fps, Finished(rows, n, fps), k)
    ensures var f := Finished(rows, n, fps);
            EpisodeStart(rows, n - 1) == if f == [] then 0 else f[|f| - 1].to
  {
    assert RowOk(rows, n - 1);
    if n == 1 {
    } else {
      FinishedCounts(rows, n - 1, fps);
      var f, g := Finished(rows, n - 1, fps), Finished(rows, n, fps);
      var from := EpisodeStart(rows, n - 2);
      forall k | 0 <= k < |g| ensures IsEpisode(rows, n, fps, g, k) {
        if k < |f| {
          assert IsEpisode(rows, n - 1, fps, f, k);
        }
      }
    }
  }

  /** Episode k covers a range of rows that starts where the last one ended, all with episode k. */
  ghost predicate IsEpisode(rows: seq<Row>, n: nat, fps: nat, episodes: seq<Episode>, k: nat)
    requires k < |episodes| && fps > 0
  {
    var e := episodes[k];
    && e.index == k && e.from < e.to <= n <= |rows|
    && e.from == (if k == 0 then 0 else episodes[k - 1].to)
    && (forall i :: e.from <= i < e.to ==> EpisodeOf(rows[i]) == k)
    && e == EpisodeOver(rows, e.from, e.to, fps)
  }

  /** The episodes are numbered 0, 1, 2, ... and their ranges tile 0..n. */
  lemma EpisodesTile(rows: seq<Row>, n: nat, fps: nat)
    requires Accepted(rows, n) && fps > 0
    ensures var episodes := Episodes(rows, n, fps);
            && (forall k :: 0 <= k < |episodes| ==> IsEpisode(rows, n, fps, episodes, k))
            && (n == 0 <==> episodes == [])
            && (n > 0 ==> episodes[|episodes| - 1].to == n && |episodes| == EpisodeOf(rows[n - 1]) + 1)
  {
    if n > 0 {
      FinishedCounts(rows, n, fps);
      var f, episodes := Finished(rows, n, fps), Episodes(rows, n, fps);
      forall k | 0 <= k < |episodes| ensures IsEpisode(rows, n, fps, episodes, k) {
        if k < |f| {
          assert IsEpisode(rows, n, fps, f, k);
        }
      }
    }
  }

  lemma {:induction false} OutRowsAt(rows: seq<Row>, from: nat, to: nat, fps: nat, i: nat)
    requires from <= i < to <= |rows| && fps > 0
    ensures OutRows(rows, from, to, fps)[i - from] == Out(rows, i, fps)
  {
    if i < to - 1 {
      OutRowsAt(rows, from, to - 1, fps, i);
    }
  }

  /** Row i of the stream is row frameIndex of its episode: index counts all rows, frameIndex those of
      the episode. */
  lemma RowsOfEpisode(rows: seq<Row>, n: nat, fps: nat, k: nat, i: nat)
    requires Accepted(rows, n) && fps > 0 && k < |Episodes(rows, n, fps)|
    requires Episodes(rows, n, fps)[k].from <= i < Episodes(rows, n, fps)[k].to && i < n
    ensures var e := Episodes(rows, n, fps)[k];
            && |e.rows| == e.to - e.from && e.rows[i - e.from].index == i
            && e.rows[i - e.from].frameIndex == i - e.from && e.rows[i - e.from].episodeIndex == k
            && e.rows[i - e.from].timestamp == (i - e.from) as real / fps as real
            && e.rows[i - e.from].taskIndex == TaskIndex(rows, i)
            && (rows[i].user.Some? ==> e.rows[i - e.from].user == rows[i].user.value)
  {
    EpisodesTile(rows, n, fps);
    var e := Episodes(rows, n, fps)[k];
    assert IsEpisode(rows, n, fps, Episodes(rows, n, fps), k);
    EpisodeStartsAt(rows, n, fps, k, i);
    RowOver(rows, e.from, e.to, fps, i);
  }

  /** Row i of an episode from..to. */
  lemma RowOver(rows: seq<Row>, from: nat, to: nat, fps: nat, i: nat)
    requires from <= i < to <= |rows| && fps > 0 && EpisodeStart(rows, i) == from
    ensures var out := EpisodeOver(rows, from, to, fps).rows;
            && |out| == to - from && out[i - from].index == i && out[i - from].frameIndex == i - from
            && out[i - from].episodeIndex == EpisodeOf(rows[i]) && out[i - from].timestamp == (i - from) as real / fps as real
            && out[i - from].taskIndex == TaskIndex(rows, i) && (rows[i].user.Some? ==> out[i - from].user == rows[i].user.value)
  {
    OutRowsAt(rows, from, to, fps, i);
  }

  lemma EpisodeStartsAt(rows: seq<Row>, n: nat, fps: nat, k: nat, i: nat)
    requires Accepted(rows, n) && fps > 0 && k < |Episodes(rows, n, fps)|
    requires Episodes(rows, n, fps)[k].from <= i < Episodes(rows, n, fps)[k].to && i < n
    ensures EpisodeStart(rows, i) == Episodes(rows, n, fps)[k].from
  {
    EpisodesTile(rows, n, fps);
    var episodes := Episodes(rows, n, fps);
    var from := episodes[k].from;
    assert IsEpisode(rows, n, fps, episodes, k);
    if from > 0 {
      assert IsEpisode(rows, n, fps, episodes, k - 1);
      assert EpisodeOf(rows[from - 1]) == k - 1;
    }
    StartIsUnique(rows, i, from);
  }

  lemma StartIsUnique(rows: seq<Row>, i: nat, s: nat)
    requires s <= i < |rows| && (forall j :: s <= j <= i ==> EpisodeOf(rows[j]) == EpisodeOf(rows[i]))
    requires s > 0 ==> EpisodeOf(rows[s - 1]) != EpisodeOf(rows[i])
    ensures EpisodeStart(rows, i) == s
  {
  }

  // Tasks --------------------------------------------------------------------------------------------

  lemma {:induction false} TasksGrow(rows: seq<Row>, m: nat, n: nat)
    requires m <= n <= |rows|
    ensures |Tasks(rows, 0, m)| <= |Tasks(rows, 0, n)|
    ensures forall k :: 0 <= k < |Tasks(rows, 0, m)| ==> Tasks(rows, 0, n)[k] == Tasks(rows, 0, m)[k]
  {
    if m < n {
      TasksGrow(rows, m, n - 1);
    }
  }

  lemma {:induction false} TasksAreDistinct(rows: seq<Row>, from: nat, to: nat)
    requires from <= to <= |rows|
    ensures forall i, j :: 0 <= i < j < |Tasks(rows, from, to)| ==> Tasks(rows, from, to)[i] != Tasks(rows, from, to)[j]
    ensures forall i :: from <= i < to ==> TaskOf(rows[i]) in Tasks(rows, from, to)
  {
    if from < to {
      TasksAreDistinct(rows, from, to - 1);
    }
  }

  lemma {:induction false} IndexIsUnique(tasks: seq<nat>, task: nat, k: nat)
    requires k < |tasks| && tasks[k] == task && forall i, j :: 0 <= i < j < |tasks| ==> tasks[i] != tasks[j]
    ensures IndexIn(tasks, task) == k
  {
    if k > 0 {
      assert tasks[0] != tasks[k];
      IndexIsUnique(tasks[1..], task, k - 1);
    }
  }

  /** A task is numbered by how many other tasks were seen before its first row, and keeps its number:
      the task list of the dataset has it at that place. */
  lemma TasksAreNumberedAsFirstSeen(rows: seq<Row>, first: nat, i: nat, n: nat)
    requires first <= i < n <= |rows| && TaskOf(rows[first]) == TaskOf(rows[i])
    requires forall j :: 0 <= j < first ==> TaskOf(rows[j]) != TaskOf(rows[i])
    ensures TaskIndex(rows, i) == |Tasks(rows, 0, first)|
    ensures TaskIndex(rows, i) < |Tasks(rows, 0, n)| && Tasks(rows, 0, n)[TaskIndex(rows, i)] == TaskOf(rows[i])
  {
    TaskHasPlace(rows, first, i + 1);
    TasksAreDistinct(rows, 0, i + 1);
    IndexIsUnique(Tasks(rows, 0, i + 1), TaskOf(rows[i]), |Tasks(rows, 0, first)|);
    TaskHasPlace(rows, first, n);
  }

  /** Where a new task goes, it stays. */
  lemma TaskHasPlace(rows: seq<Row>, first: nat, n: nat)
    requires first < n <= |rows|
    requires forall j :: 0 <= j < first ==> TaskOf(rows[j]) != TaskOf(rows[first])
    ensures |Tasks(rows, 0, first)| < |Tasks(rows, 0, n)|
    ensures Tasks(rows, 0, n)[|Tasks(rows, 0, first)|] == TaskOf(rows[first])
  {
    TasksComeFromRows(rows, first);
    assert Tasks(rows, 0, first + 1) == Tasks(rows, 0, first) + [TaskOf(rows[first])];
    TasksGrow(rows, first + 1, n);
  }

  lemma {:induction false} TasksComeFromRows(rows: seq<Row>, n: nat)
    requires n <= |rows|
    ensures forall task :: task in Tasks(rows, 0, n) ==> exists j :: 0 <= j < n && TaskOf(rows[j]) == task
  {
    if n > 0 {
      TasksComeFromRows(rows, n - 1);
      forall task | task in Tasks(rows, 0, n) ensures exists j :: 0 <= j < n && TaskOf(rows[j]) == task {
        if task in Tasks(rows, 0, n - 1) {
          var j :| 0 <= j < n - 1 && TaskOf(rows[j]) == task;
          assert 0 <= j < n;
        } else {
          assert TaskOf(rows[n - 1]) == task;
        }
      }
    }
  }

  /** `task` is used by a row from `from` up to i, and `other` by none of them. */
  ghost predicate UsedFirst(rows: seq<Row>, from: nat, i: nat, task: nat, other: nat) {
    && from <= i < |rows| && TaskOf(rows[i]) == task
    && forall j :: from <= j <= i ==> TaskOf(rows[j]) != other
  }

  ghost predicate InFirstUseOrder(rows: seq<Row>, from: nat, to: nat, task: nat, other: nat) {
    exists i: nat :: i < to && UsedFirst(rows, from, i, task, other)
  }

  /** `tasks` lists the tasks of the rows from..to, each once, in order of first use. */
  ghost predicate ListsTasks(rows: seq<Row>, from: nat, to: nat, tasks: seq<nat>) {
    && from <= to <= |rows|
    && (forall a, b :: 0 <= a < b < |tasks| ==> tasks[a] != tasks[b])
    && (forall i :: from <= i < to ==> TaskOf(rows[i]) in tasks)
    && (forall task :: task in tasks ==> exists i :: from <= i < to && TaskOf(rows[i]) == task)
    && (forall a, b :: 0 <= a < b < |tasks| ==> InFirstUseOrder(rows, from, to, tasks[a], tasks[b]))
  }

  lemma TasksAreListed(rows: seq<Row>, from: nat, to: nat)
    requires from <= to <= |rows|
    ensures ListsTasks(rows, from, to, Tasks(rows, from, to))
  {
    var tasks := ListedTasks(rows, from, to);
  }

  lemma {:induction false} ListedTasks(rows: seq<Row>, from: nat, to: nat) returns (tasks: seq<nat>)
    requires from <= to <= |rows|
    ensures tasks == Tasks(rows, from, to) && ListsTasks(rows, from, to, tasks)
  {
    if from == to {
      tasks := [];
      NoneListed(rows, from);
    } else {
      var before := ListedTasks(rows, from, to - 1);
      OneMoreListed(rows, from, to - 1, before);
      tasks := AddTask(before, TaskOf(rows[to - 1]));
    }
  }

  lemma NoneListed(rows: seq<Row>, from: nat)
    requires from <= |rows|
    ensures ListsTasks(rows, from, from, [])
  {
  }

  lemma OneMoreListed(rows: seq<Row>, from: nat, to: nat, tasks: seq<nat>)
    requires ListsTasks(rows, from, to, tasks) && to < |rows|
    ensures ListsTasks(rows, from, to + 1, AddTask(tasks, TaskOf(rows[to])))
  {
    var last, more := TaskOf(rows[to]), AddTask(tasks, TaskOf(rows[to]));
    forall task | task in more ensures exists i :: from <= i < to + 1 && TaskOf(rows[i]) == task {
      if task in tasks {
        var i :| from <= i < to && TaskOf(rows[i]) == task;
      } else {
        assert TaskOf(rows[to]) == task;
      }
    }
    forall a, b | 0 <= a < b < |more| ensures InFirstUseOrder(rows, from, to + 1, more[a], more[b]) {
      if b < |tasks| {
        assert InFirstUseOrder(rows, from, to, tasks[a], tasks[b]);
        var i: nat :| i < to && UsedFirst(rows, from, i, tasks[a], tasks[b]);
      } else {
        assert tasks[a] in tasks;
        var i :| from <= i < to && TaskOf(rows[i]) == tasks[a];
        assert UsedFirst(rows, from, i, tasks[a], last);
      }
    }
  }
}
