/** What COPY wrote, a reader finds: loading the metadata that COPY wrote succeeds, and looking up
    episodes returns exactly the paths of the data files that hold them. */
module CopyRoundTrip {
  import opened Collections
  import opened Paths
  import opened Templates
  import opened FileSeries
  import CopyRows
  import Q = CopyFiles
  import opened Routes
  import opened RouteTable

  /** The routing columns of a metadata row. */
  function ReadBack(row: Q.MetaRow): EpisodeRow {
    EpisodeRow(Some(row.episode), Some(row.length), Some(row.dataFile.chunk), Some(row.dataFile.file))
  }

  function ReadAll(rows: seq<Q.MetaRow>): (r: seq<EpisodeRow>)
    ensures |r| == |rows| && forall k :: 0 <= k < |r| ==> r[k] == ReadBack(rows[k])
  {
    seq(|rows|, k requires 0 <= k < |rows| => ReadBack(rows[k]))
  }

  function PathOfFile(id: FileId): string {
    DataRelativePath(id.chunk, id.file)
  }

  lemma PathReadBack(row: Q.MetaRow)
    ensures PathOf(ReadBack(row), DATA_PATH) == Ok(PathOfFile(row.dataFile))
  {
    DataPathRoundTrip(row.dataFile.chunk, row.dataFile.file);
  }

  lemma PathsAreInjective(a: FileId, b: FileId)
    requires PathOfFile(a) == PathOfFile(b)
    ensures a == b
  {
    ChunkPathIsInjective("data", ".parquet", a.chunk, a.file, b.chunk, b.file);
  }

  /** Episodes as COPY numbers them: 0, 1, 2, ..., each with at least one frame, tiling 0..n. */
  ghost predicate Numbered(episodes: seq<CopyRows.Episode>, n: nat) {
    && (forall k :: 0 <= k < |episodes| ==> NumberedAt(episodes, k))
    && n == if episodes == [] then 0 else episodes[|episodes| - 1].to
  }

  ghost predicate NumberedAt(episodes: seq<CopyRows.Episode>, k: nat)
    requires k < |episodes|
  {
    && episodes[k].index == k && episodes[k].from < episodes[k].to
    && episodes[k].from == if k == 0 then 0 else episodes[k - 1].to
  }

  lemma EpisodesAreNumbered(rows: seq<CopyRows.Row>, n: nat, fps: nat)
    requires CopyRows.Accepted(rows, n) && fps > 0
    ensures Numbered(CopyRows.Episodes(rows, n, fps), n)
  {
    CopyRows.EpisodesTile(rows, n, fps);
    var episodes := CopyRows.Episodes(rows, n, fps);
    forall k | 0 <= k < |episodes| ensures NumberedAt(episodes, k) {
      assert CopyRows.IsEpisode(rows, n, fps, episodes, k);
    }
  }

  lemma WrittenRow(s: Q.State, chunkSize: nat, episodes: seq<CopyRows.Episode>, rows: seq<Q.MetaRow>, n: nat, k: nat)
    requires Q.FilesOk(s, chunkSize, episodes, rows) && Numbered(episodes, n) && k < |rows|
    ensures |rows| == |episodes| && rows[k].episode == k == episodes[k].index && rows[k].length > 0
    ensures rows[k].length == episodes[k].to - episodes[k].from
    ensures episodes[k].from == if k == 0 then 0 else episodes[k - 1].to
    ensures rows[k].dataFile in s.dataFiles && episodes[k] in s.dataFiles[rows[k].dataFile]
  {
    assert Q.Describes(s, rows[k], episodes[k]) && NumberedAt(episodes, k);
  }

  /** Row k counts the frames of episode k. */
  ghost predicate Counts(rows: seq<Q.MetaRow>, episodes: seq<CopyRows.Episode>, k: nat)
    requires k < |rows| == |episodes|
  {
    rows[k].length == episodes[k].to - (if k == 0 then 0 else episodes[k - 1].to)
  }

  lemma {:induction false} WrittenFrames(rows: seq<Q.MetaRow>, episodes: seq<CopyRows.Episode>, n: nat)
    requires n <= |rows| == |episodes| && forall k :: 0 <= k < |rows| ==> Counts(rows, episodes, k)
    ensures RowFrames(ReadAll(rows), n) == if n == 0 then 0 else episodes[n - 1].to
  {
    if n > 0 {
      WrittenFrames(rows, episodes, n - 1);
      assert Counts(rows, episodes, n - 1);
    }
  }

  ghost predicate GoodRow(rows: seq<Q.MetaRow>, episodes: seq<CopyRows.Episode>, template: string, k: nat)
    requires k < |rows| == |episodes|
  {
    RowOk(ReadBack(rows[k]), template) && rows[k].episode == k && Counts(rows, episodes, k)
  }

  lemma GoodRowsLoad(rows: seq<Q.MetaRow>, episodes: seq<CopyRows.Episode>, template: string)
    requires |rows| == |episodes| && forall k :: 0 <= k < |rows| ==> GoodRow(rows, episodes, template, k)
    ensures var read := ReadAll(rows);
            && RowsOk(read, template, |read|) && DistinctEpisodes(read)
            && RowFrames(read, |read|) == if rows == [] then 0 else episodes[|rows| - 1].to
  {
    var read := ReadAll(rows);
    forall k | 0 <= k < |read|
      ensures RowOk(read[k], template) && read[k].episode == Some(k) && Counts(rows, episodes, k)
    {
      assert GoodRow(rows, episodes, template, k);
    }
    WrittenFrames(rows, episodes, |rows|);
  }

  /** Loading accepts what COPY wrote, with the totals COPY declares. */
  lemma WrittenMetadataLoads(s: Q.State, chunkSize: nat, episodes: seq<CopyRows.Episode>, rows: seq<Q.MetaRow>, n: nat)
    requires Q.FilesOk(s, chunkSize, episodes, rows) && Numbered(episodes, n)
    ensures var read := ReadAll(rows);
            && RowsOk(read, DATA_PATH, |read|) && DistinctEpisodes(read)
            && |read| == |episodes| && RowFrames(read, |read|) == n
  {
    var read := ReadAll(rows);
    forall k | 0 <= k < |read| ensures GoodRow(rows, episodes, DATA_PATH, k) {
      WrittenRow(s, chunkSize, episodes, rows, n, k);
      PathReadBack(rows[k]);
    }
    GoodRowsLoad(rows, episodes, DATA_PATH);
  }

  // Each episode is in one file ------------------------------------------------------------------------

  lemma {:induction false} PlaceInConcat<T>(files: Files<T>, chunkSize: nat, i: nat, n: nat, p: nat)
    requires i < n && Nth(i, chunkSize) in files && p < |files[Nth(i, chunkSize)]|
    ensures var at := |Concat(files, chunkSize, i)| + p;
            && at < |Concat(files, chunkSize, i + 1)| <= |Concat(files, chunkSize, n)|
            && Concat(files, chunkSize, n)[at] == files[Nth(i, chunkSize)][p]
  {
    if i < n - 1 {
      PlaceInConcat(files, chunkSize, i, n - 1, p);
    }
  }

  ghost function Before(s: Q.State, chunkSize: nat, i: nat): nat {
    |Concat(s.dataFiles, chunkSize, i)|
  }

  lemma {:induction false} BeforeGrows(s: Q.State, chunkSize: nat, i: nat, j: nat)
    requires i <= j
    ensures Before(s, chunkSize, i) <= Before(s, chunkSize, j)
  {
    if i < j {
      BeforeGrows(s, chunkSize, i, j - 1);
    }
  }

  /** The number of an episode tells which file it is in. */
  lemma FileHasRange(s: Q.State, chunkSize: nat, episodes: seq<CopyRows.Episode>, rows: seq<Q.MetaRow>, n: nat,
                     i: nat, e: CopyRows.Episode)
    requires Q.FilesOk(s, chunkSize, episodes, rows) && Numbered(episodes, n) && i < s.dataCount
    requires Nth(i, chunkSize) in s.dataFiles && e in s.dataFiles[Nth(i, chunkSize)]
    ensures Before(s, chunkSize, i) <= e.index < Before(s, chunkSize, i + 1)
    ensures e.index < |episodes| && episodes[e.index] == e
  {
    var p :| 0 <= p < |s.dataFiles[Nth(i, chunkSize)]| && s.dataFiles[Nth(i, chunkSize)][p] == e;
    PlaceInConcat(s.dataFiles, chunkSize, i, s.dataCount, p);
    AllInConcat(s, chunkSize, episodes, rows);
    PlaceIsNumber(episodes, n, Before(s, chunkSize, i) + p);
  }

  lemma AllInConcat(s: Q.State, chunkSize: nat, episodes: seq<CopyRows.Episode>, rows: seq<Q.MetaRow>)
    requires Q.FilesOk(s, chunkSize, episodes, rows)
    ensures Concat(s.dataFiles, chunkSize, s.dataCount) == episodes
  {
  }

  lemma PlaceIsNumber(episodes: seq<CopyRows.Episode>, n: nat, k: nat)
    requires Numbered(episodes, n) && k < |episodes|
    ensures episodes[k].index == k
  {
    assert NumberedAt(episodes, k);
  }

  lemma OneFilePerEpisode(s: Q.State, chunkSize: nat, episodes: seq<CopyRows.Episode>, rows: seq<Q.MetaRow>, n: nat,
                          i: nat, j: nat, e: CopyRows.Episode)
    requires Q.FilesOk(s, chunkSize, episodes, rows) && Numbered(episodes, n) && i < s.dataCount && j < s.dataCount
    requires Nth(i, chunkSize) in s.dataFiles && e in s.dataFiles[Nth(i, chunkSize)]
    requires Nth(j, chunkSize) in s.dataFiles && e in s.dataFiles[Nth(j, chunkSize)]
    ensures i == j
  {
    FileHasRange(s, chunkSize, episodes, rows, n, i, e);
    FileHasRange(s, chunkSize, episodes, rows, n, j, e);
    LaterFilesHoldLater(s, chunkSize, i, j);
    LaterFilesHoldLater(s, chunkSize, j, i);
  }

  lemma LaterFilesHoldLater(s: Q.State, chunkSize: nat, i: nat, j: nat)
    ensures i < j ==> Before(s, chunkSize, i + 1) <= Before(s, chunkSize, j)
  {
    if i < j {
      BeforeGrows(s, chunkSize, i + 1, j);
    }
  }

  /** The row of an episode names the one file that holds it. */
  lemma RowNamesTheFile(s: Q.State, chunkSize: nat, episodes: seq<CopyRows.Episode>, rows: seq<Q.MetaRow>, n: nat,
                        id: FileId, e: CopyRows.Episode)
    requires Q.FilesOk(s, chunkSize, episodes, rows) && Numbered(episodes, n)
    requires id in s.dataFiles && e in s.dataFiles[id]
    ensures 0 <= e.index < |rows| && rows[e.index].episode == e.index && rows[e.index].dataFile == id
  {
    assert IsAmongFirst(id, chunkSize, s.dataCount);
    var i: nat :| i < s.dataCount && id == Nth(i, chunkSize);
    FileHasRange(s, chunkSize, episodes, rows, n, i, e);
    WrittenRow(s, chunkSize, episodes, rows, n, e.index);
    assert IsAmongFirst(rows[e.index].dataFile, chunkSize, s.dataCount);
    var j: nat :| j < s.dataCount && rows[e.index].dataFile == Nth(j, chunkSize);
    OneFilePerEpisode(s, chunkSize, episodes, rows, n, i, j, e);
  }

  // Resolving ------------------------------------------------------------------------------------------

  /** Some episode of the file is requested. */
  ghost predicate Wanted(s: Q.State, id: FileId, requested: seq<int>)
    requires id in s.dataFiles
  {
    exists e :: e in s.dataFiles[id] && e.index in requested
  }

  /** The template leads every row to the path COPY wrote. */
  ghost predicate Reads(template: string, row: Q.MetaRow) {
    PathOf(ReadBack(row), template) == Ok(PathOfFile(row.dataFile))
  }

  lemma RowIsServed(ds: Dataset, rows: seq<Q.MetaRow>, template: string, requested: seq<int>, k: nat)
    requires Represents(ds, ReadAll(rows), template) && k < |rows| && rows[k].episode in requested && Reads(template, rows[k])
    ensures Serves(ds, requested, |requested|, PathOfFile(rows[k].dataFile))
  {
    assert HasRoute(ds, ReadAll(rows), template, k);
    var at :| 0 <= at < |ds.routes| && Leads(ds.routes[at], ds.dataFiles, ReadAll(rows)[k], template);
    var j :| 0 <= j < |requested| && requested[j] == rows[k].episode;
    assert ServesBy(ds, requested, at, j, PathOfFile(rows[k].dataFile));
  }

  lemma ServedIsARow(ds: Dataset, rows: seq<Q.MetaRow>, template: string, requested: seq<int>, path: string) returns (k: nat)
    requires Represents(ds, ReadAll(rows), template) && Serves(ds, requested, |requested|, path)
    requires forall row :: Reads(template, row)
    ensures k < |rows| && rows[k].episode in requested && path == PathOfFile(rows[k].dataFile)
  {
    var i, j :| 0 <= i < |ds.routes| && 0 <= j < |requested| && ServesBy(ds, requested, i, j, path);
    k := RowOfRoute(ds, rows, template, i);
    LeadsToFile(ds.routes[i], ds.dataFiles, rows[k], template);
  }

  lemma RowOfRoute(ds: Dataset, rows: seq<Q.MetaRow>, template: string, i: nat) returns (k: nat)
    requires Represents(ds, ReadAll(rows), template) && i < |ds.routes|
    ensures k < |rows| && Leads(ds.routes[i], ds.dataFiles, ReadBack(rows[k]), template)
  {
    assert HasRow(ds, ReadAll(rows), template, i);
    k :| 0 <= k < |rows| && Leads(ds.routes[i], ds.dataFiles, ReadAll(rows)[k], template);
  }

  lemma LeadsToFile(route: Route, files: seq<string>, row: Q.MetaRow, template: string)
    requires Leads(route, files, ReadBack(row), template) && forall r :: Reads(template, r)
    ensures route.file < |files| && files[route.file] == PathOfFile(row.dataFile) && route.episode == row.episode
  {
    assert Reads(template, row);
  }

  lemma ServedIsWanted(s: Q.State, chunkSize: nat, episodes: seq<CopyRows.Episode>, rows: seq<Q.MetaRow>, n: nat,
                       ds: Dataset, template: string, requested: seq<int>, id: FileId)
    requires Q.FilesOk(s, chunkSize, episodes, rows) && Numbered(episodes, n) && id in s.dataFiles
    requires Represents(ds, ReadAll(rows), template) && forall row :: Reads(template, row)
    ensures Serves(ds, requested, |requested|, PathOfFile(id)) <==> Wanted(s, id, requested)
  {
    if Wanted(s, id, requested) {
      var e :| e in s.dataFiles[id] && e.index in requested;
      RowNamesTheFile(s, chunkSize, episodes, rows, n, id, e);
      assert Reads(template, rows[e.index]);
      RowIsServed(ds, rows, template, requested, e.index);
    }
    if Serves(ds, requested, |requested|, PathOfFile(id)) {
      var k := ServedIsARow(ds, rows, template, requested, PathOfFile(id));
      PathsAreInjective(id, rows[k].dataFile);
      WrittenRow(s, chunkSize, episodes, rows, n, k);
    }
  }

  lemma ServedIsWritten(s: Q.State, chunkSize: nat, episodes: seq<CopyRows.Episode>, rows: seq<Q.MetaRow>, n: nat,
                        ds: Dataset, template: string, requested: seq<int>, path: string)
    requires Q.FilesOk(s, chunkSize, episodes, rows) && Numbered(episodes, n)
    requires Represents(ds, ReadAll(rows), template) && forall row :: Reads(template, row)
    requires Serves(ds, requested, |requested|, path)
    ensures exists id :: id in s.dataFiles && path == PathOfFile(id)
  {
    var k := ServedIsARow(ds, rows, template, requested, path);
    WrittenRow(s, chunkSize, episodes, rows, n, k);
  }

  /** Of the files COPY wrote, exactly those with a requested episode are resolved, and nothing else is. */
  lemma ResolvesExactlyTheFiles(s: Q.State, chunkSize: nat, episodes: seq<CopyRows.Episode>, rows: seq<Q.MetaRow>, n: nat,
                                ds: Dataset, requested: seq<int>)
    requires Q.FilesOk(s, chunkSize, episodes, rows) && Numbered(episodes, n)
    requires Represents(ds, ReadAll(rows), DATA_PATH)
    ensures forall id :: id in s.dataFiles ==>
              (Serves(ds, requested, |requested|, PathOfFile(id)) <==> Wanted(s, id, requested))
    ensures forall path :: Serves(ds, requested, |requested|, path) ==>
              exists id :: id in s.dataFiles && path == PathOfFile(id)
  {
    var template := DATA_PATH;
    forall row ensures Reads(template, row) {
      PathReadBack(row);
    }
    forall id | id in s.dataFiles
      ensures Serves(ds, requested, |requested|, PathOfFile(id)) <==> Wanted(s, id, requested)
    {
      ServedIsWanted(s, chunkSize, episodes, rows, n, ds, template, requested, id);
    }
    forall path | Serves(ds, requested, |requested|, path)
      ensures exists id :: id in s.dataFiles && path == PathOfFile(id)
    {
      ServedIsWritten(s, chunkSize, episodes, rows, n, ds, template, requested, path);
    }
  }
}
