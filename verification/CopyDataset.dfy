/** The dataset that COPY leaves behind, field by field in terms of the rows it was given. */
module CopyDataset {
  import opened Collections
  import opened FileSeries
  import opened CopyRows
  import opened CopyFiles

  /** Metadata row k: episode k is the input rows from..to, which follow those of the row before. */
  ghost predicate RowSays(input: seq<Row>, rows: seq<MetaRow>, k: nat) {
    && k < |rows|
    && var row := rows[k];
       && row.episode == k && row.from < row.to <= |input|
       && row.from == (if k == 0 then 0 else rows[k - 1].to) && row.length == row.to - row.from
       && (forall i :: row.from <= i < row.to ==> input[i].episode == Some(k))
       && ListsTasks(input, row.from, row.to, row.tasks)
  }

  /** One row per episode, and their ranges make up the whole input. */
  ghost predicate RowsSay(input: seq<Row>, rows: seq<MetaRow>) {
    && (forall k: nat :: k < |rows| ==> RowSays(input, rows, k))
    && |input| == if rows == [] then 0 else rows[|rows| - 1].to
  }

  /** What is written for input row i, whose episode starts at row `from`. */
  ghost predicate CellsSay(out: OutRow, input: seq<Row>, fps: nat, tasks: seq<nat>, i: nat, from: nat) {
    && i < |input| && fps > 0 && from <= i
    && input[i] == Row(Some(out.episodeIndex), if out.taskIndex < |tasks| then Some(tasks[out.taskIndex]) else None, Some(out.user))
    && out.index == i && out.frameIndex == i - from && out.timestamp == (i - from) as real / fps as real
  }

  /** The data file that the row names holds the input rows of its range, one after the other. */
  ghost predicate DataSays(s: State, input: seq<Row>, fps: nat, tasks: seq<nat>, row: MetaRow) {
    row.dataFile in s.dataFiles && exists e :: e in s.dataFiles[row.dataFile] && EpisodeSays(e, input, fps, tasks, row)
  }

  ghost predicate EpisodeSays(e: Episode, input: seq<Row>, fps: nat, tasks: seq<nat>, row: MetaRow) {
    && row.from <= row.to && |e.rows| == row.to - row.from
    && forall j: nat :: j < |e.rows| ==> CellsSay(e.rows[j], input, fps, tasks, row.from + j, row.from)
  }

  /** All of it: the metadata rows, in the files they name, the data they lead to, and the list of tasks. */
  ghost predicate DatasetSays(s: State, chunkSize: nat, input: seq<Row>, fps: nat, tasks: seq<nat>, rows: seq<MetaRow>) {
    && RowsSay(input, rows) && ListsTasks(input, 0, |input|, tasks)
    && Concat(s.metaFiles, chunkSize, s.metaCount) == rows
    && (forall k: nat :: k < |rows| ==> rows[k].metaFile in s.metaFiles && rows[k] in s.metaFiles[rows[k].metaFile])
    && (forall k: nat :: k < |rows| ==> DataSays(s, input, fps, tasks, rows[k]))
  }

  lemma CellsAreSaid(input: seq<Row>, fps: nat, k: nat, i: nat)
    requires fps > 0 && Accepted(input, |input|) && k < |Episodes(input, |input|, fps)|
    requires Episodes(input, |input|, fps)[k].from <= i < Episodes(input, |input|, fps)[k].to && i < |input|
    ensures var e := Episodes(input, |input|, fps)[k];
            && |e.rows| == e.to - e.from
            && CellsSay(e.rows[i - e.from], input, fps, Tasks(input, 0, |input|), i, e.from)
  {
    RowsOfEpisode(input, |input|, fps, k, i);
    assert RowOk(input, i);
    EpisodesTile(input, |input|, fps);
    assert IsEpisode(input, |input|, fps, Episodes(input, |input|, fps), k);
    var first := FirstUse(input, i);
    TasksAreNumberedAsFirstSeen(input, first, i, |input|);
  }

  lemma FirstUse(rows: seq<Row>, i: nat) returns (first: nat)
    requires i < |rows|
    ensures first <= i && TaskOf(rows[first]) == TaskOf(rows[i])
    ensures forall j :: 0 <= j < first ==> TaskOf(rows[j]) != TaskOf(rows[i])
  {
    first := 0;
    while TaskOf(rows[first]) != TaskOf(rows[i])
      invariant first <= i && forall j :: 0 <= j < first ==> TaskOf(rows[j]) != TaskOf(rows[i])
      decreases i - first
    {
      first := first + 1;
    }
  }

  /** The metadata row of an episode. */
  lemma RowIsSaid(s: State, input: seq<Row>, fps: nat, episodes: seq<Episode>, rows: seq<MetaRow>, k: nat)
    requires fps > 0 && Accepted(input, |input|) && episodes == Episodes(input, |input|, fps)
    requires |rows| == |episodes| && k < |rows| && IsRowOf(s, rows[k], episodes[k])
    requires k > 0 ==> IsRowOf(s, rows[k - 1], episodes[k - 1])
    ensures RowSays(input, rows, k)
  {
    var e := episodes[k];
    EpisodesTile(input, |input|, fps);
    assert IsEpisode(input, |input|, fps, episodes, k);
    TasksAreListed(input, e.from, e.to);
    forall i | e.from <= i < e.to ensures input[i].episode == Some(k) {
      assert RowOk(input, i);
    }
  }

  /** The data of an episode. */
  lemma DataIsSaid(s: State, input: seq<Row>, fps: nat, tasks: seq<nat>, row: MetaRow, k: nat)
    requires fps > 0 && Accepted(input, |input|) && tasks == Tasks(input, 0, |input|)
    requires k < |Episodes(input, |input|, fps)| && IsRowOf(s, row, Episodes(input, |input|, fps)[k])
    ensures DataSays(s, input, fps, tasks, row)
  {
    var e := Episodes(input, |input|, fps)[k];
    EpisodeIsSaid(input, fps, tasks, row, k);
    assert EpisodeSays(e, input, fps, tasks, row);
  }

  lemma EpisodeIsSaid(input: seq<Row>, fps: nat, tasks: seq<nat>, row: MetaRow, k: nat)
    requires fps > 0 && Accepted(input, |input|) && tasks == Tasks(input, 0, |input|)
    requires k < |Episodes(input, |input|, fps)|
    requires var e := Episodes(input, |input|, fps)[k]; row.from == e.from && row.to == e.to
    ensures EpisodeSays(Episodes(input, |input|, fps)[k], input, fps, tasks, row)
  {
    var e := Episodes(input, |input|, fps)[k];
    EpisodesTile(input, |input|, fps);
    assert IsEpisode(input, |input|, fps, Episodes(input, |input|, fps), k);
    forall j: nat | j < e.to - e.from
      ensures |e.rows| == e.to - e.from && CellsSay(e.rows[j], input, fps, tasks, e.from + j, e.from)
    {
      CellsAreSaid(input, fps, k, e.from + j);
    }
  }

  /** What the files hold at the end is the dataset of the input rows. */
  lemma DatasetIsWritten(s: State, chunkSize: nat, input: seq<Row>, fps: nat, rows: seq<MetaRow>)
    requires fps > 0 && Accepted(input, |input|)
    requires FilesOk(s, chunkSize, Episodes(input, |input|, fps), rows) && s.buffer == []
    ensures DatasetSays(s, chunkSize, input, fps, Tasks(input, 0, |input|), rows)
  {
    var episodes := Episodes(input, |input|, fps);
    EverythingIsWhereItsRowSays(s, chunkSize, episodes, rows);
    TasksAreListed(input, 0, |input|);
    EpisodesTile(input, |input|, fps);
    forall k: nat | k < |rows| ensures RowSays(input, rows, k) && DataSays(s, input, fps, Tasks(input, 0, |input|), rows[k]) {
      assert IsRowOf(s, rows[k], episodes[k]) && (k > 0 ==> IsRowOf(s, rows[k - 1], episodes[k - 1]));
      RowIsSaid(s, input, fps, episodes, rows, k);
      DataIsSaid(s, input, fps, Tasks(input, 0, |input|), rows[k], k);
    }
    if rows != [] {
      assert IsRowOf(s, rows[|rows| - 1], episodes[|rows| - 1]);
    }
  }
}
