/** From the rows given to COPY to the files a reader opens: COPY, loading its metadata in whatever order the rows
    come back, and looking up episodes. */
module CopyReadBack {
  import opened Collections
  import opened FileSeries
  import opened CopyRows
  import Q = CopyFiles
  import CopyWriter
  import Routes
  import RouteTable
  import opened CopyRoundTrip
  import Templates

  /** The rows of a metadata query over all files, in any order. */
  ghost predicate ReadsAll(query: Files<Q.MetaRow> -> seq<Routes.EpisodeRow>, files: Files<Q.MetaRow>, chunkSize: nat, n: nat) {
    multiset(query(files)) == multiset(ReadAll(Concat(files, chunkSize, n)))
  }

  ghost predicate IsQuery(query: Files<Q.MetaRow> -> seq<Routes.EpisodeRow>, chunkSize: nat) {
    forall files, n :: Opens(files, chunkSize, n) ==> ReadsAll(query, files, chunkSize, n)
  }

  // The order of the rows does not matter ---------------------------------------------------------------

  function Length(row: Routes.EpisodeRow): int {
    if row.length.Some? then row.length.value else 0
  }

  function Without<T>(s: seq<T>, i: nat): (r: seq<T>)
    requires i < |s|
    ensures multiset(r) == multiset(s) - multiset{s[i]} && |r| == |s| - 1
  {
    assert s == s[..i] + [s[i]] + s[i + 1..];
    s[..i] + s[i + 1..]
  }

  lemma {:induction false} FramesWithout(rows: seq<Routes.EpisodeRow>, i: nat)
    requires i < |rows|
    ensures RouteTable.RowFrames(rows, |rows|) == RouteTable.RowFrames(Without(rows, i), |rows| - 1) + Length(rows[i])
  {
    var last := |rows| - 1;
    var front, rest := rows[..last], Without(rows, i);
    assert rows == front + [rows[last]];
    FramesOfFront(rows, front, rows[last]);
    if i < last {
      FramesWithout(front, i);
      WithoutOfFront(front, rows[last], i);
      FramesOfFront(rest, Without(front, i), rows[last]);
    } else {
      assert rest == front;
    }
  }

  lemma WithoutOfFront<T>(front: seq<T>, last: T, i: nat)
    requires i < |front|
    ensures Without(front + [last], i) == Without(front, i) + [last]
  {
  }

  lemma FramesOfFront(rows: seq<Routes.EpisodeRow>, front: seq<Routes.EpisodeRow>, last: Routes.EpisodeRow)
    requires rows == front + [last]
    ensures RouteTable.RowFrames(rows, |rows|) == RouteTable.RowFrames(front, |front|) + Length(last)
  {
    PrefixFrames(rows, front, |front|);
  }

  lemma {:induction false} PrefixFrames(rows: seq<Routes.EpisodeRow>, front: seq<Routes.EpisodeRow>, n: nat)
    requires n <= |front| <= |rows| && forall k :: 0 <= k < n ==> rows[k] == front[k]
    ensures RouteTable.RowFrames(rows, n) == RouteTable.RowFrames(front, n)
  {
    if n > 0 {
      PrefixFrames(rows, front, n - 1);
    }
  }

  lemma {:induction false} SameFrames(a: seq<Routes.EpisodeRow>, b: seq<Routes.EpisodeRow>)
    requires multiset(a) == multiset(b)
    ensures |a| == |b| && RouteTable.RowFrames(a, |a|) == RouteTable.RowFrames(b, |b|)
    decreases |a|
  {
    SameSize(a, b);
    if a != [] {
      var last := |a| - 1;
      assert a[last] in multiset(b);
      var i :| 0 <= i < |b| && b[i] == a[last];
      SameFrames(Without(a, last), Without(b, i));
      FramesWithout(a, last);
      FramesWithout(b, i);
    }
  }

  lemma IndexIn<T>(a: seq<T>, b: seq<T>, i: nat) returns (j: nat)
    requires multiset(a) == multiset(b) && i < |a|
    ensures j < |b| && b[j] == a[i]
  {
    assert a[i] in multiset(b);
    j :| 0 <= j < |b| && b[j] == a[i];
  }

  lemma SameDistinct(rows: seq<Routes.EpisodeRow>, read: seq<Routes.EpisodeRow>)
    requires multiset(rows) == multiset(read) && Routes.DistinctEpisodes(rows)
    ensures Routes.DistinctEpisodes(read)
  {
    RouteTable.SameCountsSameDistinct(rows, read);
    forall i, j | 0 <= i < j < |read| ensures read[i].episode != read[j].episode {
      var p := IndexIn(read, rows, i);
      var q := IndexIn(read, rows, j);
      assert read[i] != read[j];
    }
  }

  lemma SameRowsOk(rows: seq<Routes.EpisodeRow>, read: seq<Routes.EpisodeRow>, template: string)
    requires multiset(rows) == multiset(read) && Routes.RowsOk(rows, template, |rows|)
    ensures Routes.RowsOk(read, template, |read|)
  {
    forall i | 0 <= i < |read| ensures Routes.RowOk(read[i], template) {
      var j := IndexIn(read, rows, i);
      assert Routes.RowOk(rows[j], template);
    }
  }

  lemma SameRepresents(ds: Routes.Dataset, rows: seq<Routes.EpisodeRow>, read: seq<Routes.EpisodeRow>, template: string)
    requires multiset(rows) == multiset(read) && Routes.Represents(ds, read, template)
    ensures Routes.Represents(ds, rows, template)
  {
    SameSize(rows, read);
    forall j | 0 <= j < |ds.routes| ensures Routes.HasRow(ds, rows, template, j) {
      assert Routes.HasRow(ds, read, template, j);
      var k :| 0 <= k < |read| && Routes.Leads(ds.routes[j], ds.dataFiles, read[k], template);
      var m := IndexIn(read, rows, k);
    }
    forall k | 0 <= k < |rows| ensures Routes.HasRoute(ds, rows, template, k) {
      var m := IndexIn(rows, read, k);
      assert Routes.HasRoute(ds, read, template, m);
    }
  }

  // Writing and reading ---------------------------------------------------------------------------------

  /** What the query returns can be loaded. */
  lemma WrittenCanBeRead(s: Q.State, chunkSize: nat, episodes: seq<Episode>, rows: seq<Q.MetaRow>, n: nat, template: string,
                         read: seq<Routes.EpisodeRow>)
    requires Q.FilesOk(s, chunkSize, episodes, rows) && Numbered(episodes, n) && template == Templates.DATA_PATH
    requires multiset(read) == multiset(ReadAll(rows))
    ensures Routes.RowsOk(read, template, |read|) && Routes.DistinctEpisodes(read)
    ensures |read| == |episodes| && RouteTable.RowFrames(read, |read|) == n
    ensures episodes == [] ==> rows == []
  {
    WrittenMetadataLoads(s, chunkSize, episodes, rows, n);
    SameRowsOk(ReadAll(rows), read, template);
    SameDistinct(ReadAll(rows), read);
    SameFrames(ReadAll(rows), read);
  }

  lemma NothingRepresents(template: string)
    ensures Routes.Represents(Routes.Dataset([], []), [], template)
  {
  }

  /** Loading the rows that a query returned, in any order. */
  method LoadRead(read: seq<Routes.EpisodeRow>, template: string, totalEpisodes: nat, totalFrames: nat,
                  ghost written: seq<Routes.EpisodeRow>)
    returns (ds: Routes.Dataset)
    requires Routes.RowsOk(read, template, |read|) && Routes.DistinctEpisodes(read)
    requires |read| == totalEpisodes && RouteTable.RowFrames(read, |read|) == totalFrames <= 0x7FFF_FFFF_FFFF_FFFF
    requires multiset(read) == multiset(written)
    ensures Routes.Represents(ds, written, template)
  {
    SameSize(read, written);
    var loaded := RouteTable.Load(read, template, totalEpisodes, totalFrames);
    ds := loaded.value;
    if totalEpisodes == 0 {
      NothingRepresents(template);
    } else {
      SameRepresents(ds, written, read, template);
    }
  }

  lemma QueriedRows(query: Files<Q.MetaRow> -> seq<Routes.EpisodeRow>, s: Q.State, chunkSize: nat, rows: seq<Q.MetaRow>)
    requires IsQuery(query, chunkSize) && Q.MetaOk(s, chunkSize, rows) && s.buffer == []
    ensures multiset(query(s.metaFiles)) == multiset(ReadAll(rows))
  {
    var all := Concat(s.metaFiles, chunkSize, s.metaCount);
    assert all + [] == all;
    assert ReadsAll(query, s.metaFiles, chunkSize, s.metaCount);
  }

  lemma FilesAreInRange(ds: Routes.Dataset, rows: seq<Routes.EpisodeRow>, template: string)
    requires Routes.Represents(ds, rows, template)
    ensures RouteTable.FilesInRange(ds)
  {
    forall i | 0 <= i < |ds.routes| ensures ds.routes[i].file < |ds.dataFiles| {
      assert Routes.HasRow(ds, rows, template, i);
    }
  }

  /** For every stream of rows however it is chunked: COPY accepts exactly the streams with episodes 0, 1, 2, ..., and
      then a reader who asks for some episodes gets the paths of exactly the data files COPY wrote that hold one of
      them, sorted and each once. */
  method CopyThenResolve(chunks: seq<seq<Row>>, fps: nat, limits: Q.Limits, dataSize: nat -> nat, metaSize: nat -> nat,
                         query: Files<Q.MetaRow> -> seq<Routes.EpisodeRow>, requested: seq<int>)
    returns (ok: bool, paths: seq<string>, writer: CopyWriter.Writer, ghost rows: seq<Row>)
    requires fps > 0 && limits.chunkSize > 0 && IsQuery(query, limits.chunkSize)
    requires |CopyWriter.Joined(chunks, |chunks|)| <= 0x7FFF_FFFF_FFFF_FFFF
    ensures rows == CopyWriter.Joined(chunks, |chunks|)
    ensures ok <==> Accepted(rows, |rows|)
    ensures ok ==> Routes.Increasing(paths)
    ensures ok ==> forall id :: id in writer.files.State().dataFiles ==>
              (PathOfFile(id) in paths <==> Wanted(writer.files.State(), id, requested))
    ensures ok ==> forall path :: path in paths ==> exists id :: id in writer.files.State().dataFiles && path == PathOfFile(id)
  {
    ok, writer, rows := CopyWriter.Copy(chunks, fps, limits, dataSize, metaSize);
    paths := [];
    if ok {
      ghost var s := writer.files.State();
      EpisodesAreNumbered(rows, |rows|, fps);
      QueriedRows(query, s, limits.chunkSize, writer.files.rows);
      paths := Resolve(query(writer.files.metaFiles), writer.totalEpisodes, writer.totalFrames, requested, s,
                       limits.chunkSize, writer.files.episodes, writer.files.rows);
    }
  }

  /** The paths of the requested episodes' files, from the metadata rows. */
  method Resolve(read: seq<Routes.EpisodeRow>, totalEpisodes: nat, totalFrames: nat, requested: seq<int>, ghost s: Q.State,
                 ghost chunkSize: nat, ghost episodes: seq<Episode>, ghost rows: seq<Q.MetaRow>)
    returns (paths: seq<string>)
    requires Q.FilesOk(s, chunkSize, episodes, rows) && Numbered(episodes, totalFrames) && totalEpisodes == |episodes|
    requires totalFrames <= 0x7FFF_FFFF_FFFF_FFFF && multiset(read) == multiset(ReadAll(rows))
    ensures Routes.Increasing(paths)
    ensures forall id :: id in s.dataFiles ==> (PathOfFile(id) in paths <==> Wanted(s, id, requested))
    ensures forall path :: path in paths ==> exists id :: id in s.dataFiles && path == PathOfFile(id)
  {
    var template := Templates.DATA_PATH;
    WrittenCanBeRead(s, chunkSize, episodes, rows, totalFrames, template, read);
    var ds := LoadRead(read, template, totalEpisodes, totalFrames, ReadAll(rows));
    FilesAreInRange(ds, ReadAll(rows), template);
    paths := RouteTable.ResolveDataFiles(ds, requested);
    ResolvesExactlyTheFiles(s, chunkSize, episodes, rows, totalFrames, ds, requested);
  }
}
