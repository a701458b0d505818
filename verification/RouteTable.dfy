/** Loading the episode routes of a dataset and looking them up. */
module RouteTable {
  import opened Collections
  import opened Paths
  import opened Templates
  import opened Routes

  /** The table maps each data file to its position. */
  ghost predicate Positions(table: map<string, nat>, files: seq<string>) {
    && (forall path :: path in table <==> path in files)
    && (forall path :: path in table ==> table[path] < |files| && files[table[path]] == path)
  }

  /** Position of a path among the data files; new paths are added. */
  method Intern(table: map<string, nat>, files: seq<string>, path: string)
    returns (table': map<string, nat>, files': seq<string>, index: nat)
    requires Positions(table, files) && Distinct(files)
    ensures Positions(table', files') && Distinct(files')
    ensures |files| <= |files'| && (forall i :: 0 <= i < |files| ==> files'[i] == files[i])
    ensures index < |files'| && files'[index] == path
  {
    if path in table {
      return table, files, table[path];
    }
    index := |files|;
    files' := files + [path];
    table' := table[path := index];
  }

  ghost predicate LeadsAll(routes: seq<Route>, files: seq<string>, rows: seq<EpisodeRow>, template: string, n: nat) {
    n <= |rows| && |routes| == n && forall k :: 0 <= k < n ==> Leads(routes[k], files, rows[k], template)
  }

  lemma MoreFilesLead(routes: seq<Route>, files: seq<string>, more: seq<string>, rows: seq<EpisodeRow>, template: string, n: nat)
    requires LeadsAll(routes, files, rows, template, n)
    requires |files| <= |more| && forall i :: 0 <= i < |files| ==> more[i] == files[i]
    ensures LeadsAll(routes, more, rows, template, n)
  {
    forall k | 0 <= k < n ensures Leads(routes[k], more, rows[k], template) {
      assert Leads(routes[k], files, rows[k], template);
    }
  }

  /** One route per row, or None at the first row that is not acceptable. */
  method ReadRoutes(rows: seq<EpisodeRow>, template: string) returns (r: Option<Dataset>)
    ensures r.Some? <==> RowsOk(rows, template, |rows|)
    ensures r.Some? ==> LeadsAll(r.value.routes, r.value.dataFiles, rows, template, |rows|) && Distinct(r.value.dataFiles)
  {
    var routes, files: seq<string>, table: map<string, nat> := [], [], map[];
    for k := 0 to |rows|
      invariant RowsOk(rows, template, k) && LeadsAll(routes, files, rows, template, k)
      invariant Positions(table, files) && Distinct(files)
    {
      var row := rows[k];
      if row.episode.None? || row.length.None? || row.chunk.None? || row.file.None?
         || row.episode.value < 0 || row.length.value <= 0 {
        assert !RowOk(rows[k], template);
        return None;
      }
      var path := FormatPathTemplate(template, Fields(row.chunk.value, row.file.value, false, ""));
      if path.Error? {
        assert !RowOk(rows[k], template);
        return None;
      }
      ghost var before := files;
      var index: nat;
      table, files, index := Intern(table, files, path.value);
      MoreFilesLead(routes, before, files, rows, template, k);
      routes := routes + [Route(row.episode.value, row.length.value, index)];
      assert RowOk(rows[k], template) && Leads(routes[k], files, rows[k], template);
    }
    r := Some(Dataset(routes, files));
  }

  /** Do adjacent routes of the ordered list differ in their episode? */
  method NoDuplicates(routes: seq<Route>) returns (ok: bool)
    requires Ordered(routes)
    ensures ok <==> StrictlyOrdered(routes)
  {
    var i := 1;
    while i < |routes|
      invariant i >= 1
      invariant forall a, b :: 0 <= a < b < i && b < |routes| ==> routes[a].episode < routes[b].episode
    {
      if routes[i - 1].episode == routes[i].episode {
        return false;
      }
      assert forall a :: 0 <= a < i - 1 ==> routes[a].episode <= routes[i - 1].episode;
      i := i + 1;
    }
    ok := true;
  }

  lemma {:induction false} FramesGrow(routes: seq<Route>, m: nat, n: nat)
    requires m <= n <= |routes| && forall j :: 0 <= j < |routes| ==> routes[j].length > 0
    ensures Frames(routes, m) <= Frames(routes, n)
  {
    if m < n {
      FramesGrow(routes, m, n - 1);
    }
  }

  /** Do the lengths add up to the declared total? */
  method CountsFrames(routes: seq<Route>, totalFrames: int) returns (ok: bool)
    requires totalFrames <= MAX_FRAMES && forall j :: 0 <= j < |routes| ==> routes[j].length > 0
    ensures ok <==> Frames(routes, |routes|) == totalFrames
  {
    var frames := 0;
    for i := 0 to |routes|
      invariant frames == Frames(routes, i)
    {
      if routes[i].length > MAX_FRAMES - frames {
        FramesGrow(routes, i + 1, |routes|);
        return false;
      }
      frames := frames + routes[i].length;
    }
    ok := frames == totalFrames;
  }

  // Sorting changes neither the routes nor their number of frames ---------------------------------------

  lemma {:induction false} FramesInserted(sorted: seq<Route>, route: Route)
    requires Ordered(sorted)
    ensures |InsertRoute(sorted, route)| == |sorted| + 1
    ensures Frames(InsertRoute(sorted, route), |sorted| + 1) == Frames(sorted, |sorted|) + route.length
  {
    var r := InsertRoute(sorted, route);
    SameSize(r, sorted + [route]);
    if sorted != [] {
      var front, last := sorted[..|sorted| - 1], sorted[|sorted| - 1];
      FramesOfFront(sorted, front, |front|);
      if route.episode >= last.episode {
        FramesOfFront(r, sorted, |sorted|);
      } else {
        FramesInserted(front, route);
        FramesOfFront(r, InsertRoute(front, route), |sorted|);
      }
    }
  }

  lemma {:induction false} FramesOfFront(a: seq<Route>, b: seq<Route>, n: nat)
    requires n <= |a| && n <= |b| && forall i :: 0 <= i < n ==> a[i] == b[i]
    ensures Frames(a, n) == Frames(b, n)
  {
    if n > 0 {
      FramesOfFront(a, b, n - 1);
    }
  }

  lemma {:induction false} FramesSorted(routes: seq<Route>)
    ensures |SortRoutes(routes)| == |routes| && Frames(SortRoutes(routes), |routes|) == Frames(routes, |routes|)
  {
    SameSize(SortRoutes(routes), routes);
    if routes != [] {
      var front := routes[..|routes| - 1];
      FramesSorted(front);
      FramesInserted(SortRoutes(front), routes[|routes| - 1]);
      FramesOfFront(routes, front, |front|);
    }
  }

  /** Routes in the order of the rows, with distinct episodes, become a data set by sorting. */
  lemma SortedRepresents(routes: seq<Route>, files: seq<string>, rows: seq<EpisodeRow>, template: string)
    requires LeadsAll(routes, files, rows, template, |rows|) && Distinct(files) && StrictlyOrdered(SortRoutes(routes))
    ensures Represents(Dataset(SortRoutes(routes), files), rows, template)
  {
    var ds := Dataset(SortRoutes(routes), files);
    SameSize(ds.routes, routes);
    forall j | 0 <= j < |ds.routes| ensures HasRow(ds, rows, template, j) {
      assert ds.routes[j] in multiset(routes);
      var k :| 0 <= k < |routes| && routes[k] == ds.routes[j];
      assert Leads(routes[k], files, rows[k], template);
    }
    forall k | 0 <= k < |rows| ensures HasRoute(ds, rows, template, k) {
      assert routes[k] in multiset(ds.routes);
      var j :| 0 <= j < |ds.routes| && ds.routes[j] == routes[k];
      assert Leads(ds.routes[j], files, rows[k], template);
    }
  }

  function EpisodesOf(routes: seq<Route>): (r: seq<int>)
    ensures |r| == |routes| && forall i :: 0 <= i < |r| ==> r[i] == routes[i].episode
  {
    seq(|routes|, i requires 0 <= i < |routes| => routes[i].episode)
  }

  lemma EpisodesSnoc(routes: seq<Route>, route: Route)
    ensures multiset(EpisodesOf(routes + [route])) == multiset(EpisodesOf(routes)) + multiset{route.episode}
  {
    assert EpisodesOf(routes + [route]) == EpisodesOf(routes) + [route.episode];
  }

  lemma {:induction false} EpisodesInserted(sorted: seq<Route>, route: Route)
    requires Ordered(sorted)
    ensures multiset(EpisodesOf(InsertRoute(sorted, route))) == multiset(EpisodesOf(sorted)) + multiset{route.episode}
  {
    if sorted == [] {
      EpisodesSnoc([], route);
      assert [] + [route] == [route];
    } else {
      var front, last := sorted[..|sorted| - 1], sorted[|sorted| - 1];
      assert sorted == front + [last];
      EpisodesSnoc(front, last);
      if route.episode >= last.episode {
        EpisodesSnoc(sorted, route);
      } else {
        EpisodesInserted(front, route);
        EpisodesSnoc(InsertRoute(front, route), last);
      }
    }
  }

  lemma EpisodesSame(a: seq<Route>, b: seq<Route>, route: Route)
    requires Ordered(a) && multiset(EpisodesOf(a)) == multiset(EpisodesOf(b))
    ensures multiset(EpisodesOf(InsertRoute(a, route))) == multiset(EpisodesOf(b + [route]))
  {
    EpisodesInserted(a, route);
    EpisodesSnoc(b, route);
  }

  lemma {:induction false} EpisodesSorted(routes: seq<Route>)
    ensures multiset(EpisodesOf(SortRoutes(routes))) == multiset(EpisodesOf(routes))
  {
    if routes != [] {
      var front, last := routes[..|routes| - 1], routes[|routes| - 1];
      assert routes == front + [last];
      EpisodesSorted(front);
      EpisodesSame(SortRoutes(front), front, last);
    }
  }

  ghost predicate NoneTwice<T>(s: seq<T>) {
    forall i, j :: 0 <= i < j < |s| ==> s[i] != s[j]
  }

  lemma {:induction false} CountsOfDistinct<T>(s: seq<T>, x: T)
    requires NoneTwice(s)
    ensures multiset(s)[x] <= 1
  {
    if s != [] {
      var front, last := s[..|s| - 1], s[|s| - 1];
      assert s == front + [last];
      CountsOfDistinct(front, x);
      forall i | 0 <= i < |front| ensures front[i] != last {
        assert s[i] != s[|s| - 1];
      }
      assert last !in front;
    }
  }

  lemma TwiceIsCounted<T>(s: seq<T>, i: nat, j: nat)
    requires i < j < |s| && s[i] == s[j]
    ensures multiset(s)[s[i]] >= 2
  {
    assert s == s[..i] + [s[i]] + s[i + 1..j] + [s[j]] + s[j + 1..];
  }

  lemma SameCountsSameDistinct<T>(a: seq<T>, b: seq<T>)
    requires multiset(a) == multiset(b) && NoneTwice(a)
    ensures NoneTwice(b)
  {
    forall i, j | 0 <= i < j < |b| ensures b[i] != b[j] {
      if b[i] == b[j] {
        TwiceIsCounted(b, i, j);
        CountsOfDistinct(a, b[i]);
      }
    }
  }

  lemma StrictMeansDistinct(routes: seq<Route>, files: seq<string>, rows: seq<EpisodeRow>, template: string)
    requires LeadsAll(routes, files, rows, template, |rows|)
    ensures StrictlyOrdered(SortRoutes(routes)) <==> DistinctEpisodes(rows)
  {
    var a, b := EpisodesOf(SortRoutes(routes)), EpisodesOf(routes);
    EpisodesSorted(routes);
    forall k | 0 <= k < |rows| ensures rows[k].episode == Some(b[k]) {
      assert Leads(routes[k], files, rows[k], template);
    }
    if StrictlyOrdered(SortRoutes(routes)) {
      SameCountsSameDistinct(a, b);
    }
    if DistinctEpisodes(rows) {
      RowsDistinctMeansNoneTwice(b, rows);
      SameCountsSameDistinct(b, a);
      OrderedAndDistinct(SortRoutes(routes));
    }
  }

  lemma RowsDistinctMeansNoneTwice(b: seq<int>, rows: seq<EpisodeRow>)
    requires DistinctEpisodes(rows) && |b| == |rows| && forall k :: 0 <= k < |rows| ==> rows[k].episode == Some(b[k])
    ensures NoneTwice(b)
  {
    forall i, j | 0 <= i < j < |b| ensures b[i] != b[j] {
      assert rows[i].episode != rows[j].episode;
    }
  }

  lemma OrderedAndDistinct(routes: seq<Route>)
    requires Ordered(routes) && NoneTwice(EpisodesOf(routes))
    ensures StrictlyOrdered(routes)
  {
    forall i, j | 0 <= i < j < |routes| ensures routes[i].episode < routes[j].episode {
      assert EpisodesOf(routes)[i] != EpisodesOf(routes)[j];
    }
  }

  function RowFrames(rows: seq<EpisodeRow>, n: nat): int
    requires n <= |rows|
  {
    if n == 0 then 0 else RowFrames(rows, n - 1) + if rows[n - 1].length.Some? then rows[n - 1].length.value else 0
  }

  lemma {:induction false} RouteFrames(routes: seq<Route>, files: seq<string>, rows: seq<EpisodeRow>, template: string, n: nat)
    requires LeadsAll(routes, files, rows, template, |rows|) && n <= |rows|
    ensures Frames(routes, n) == RowFrames(rows, n)
  {
    if n > 0 {
      RouteFrames(routes, files, rows, template, n - 1);
      assert Leads(routes[n - 1], files, rows[n - 1], template);
    }
  }

  lemma LengthsArePositive(routes: seq<Route>, files: seq<string>, rows: seq<EpisodeRow>, template: string)
    requires LeadsAll(routes, files, rows, template, |rows|) && RowsOk(rows, template, |rows|)
    ensures forall j :: 0 <= j < |SortRoutes(routes)| ==> SortRoutes(routes)[j].length > 0
  {
    var sorted := SortRoutes(routes);
    forall j | 0 <= j < |sorted| ensures sorted[j].length > 0 {
      assert sorted[j] in multiset(routes);
      var k :| 0 <= k < |routes| && routes[k] == sorted[j];
      assert Leads(routes[k], files, rows[k], template) && RowOk(rows[k], template);
    }
  }

  /** The episode metadata as a data set, or None when a row is unusable, an episode occurs twice, or the
      totals that info.json declares do not match. */
  method Load(rows: seq<EpisodeRow>, template: string, totalEpisodes: int, totalFrames: int) returns (r: Option<Dataset>)
    requires totalFrames <= 0x7FFF_FFFF_FFFF_FFFF
    ensures totalEpisodes == 0 ==> r == Some(Dataset([], []))
    ensures totalEpisodes != 0 ==>
              (r.Some? <==> (forall k :: 0 <= k < |rows| ==>
                               rows[k].episode.Some? && rows[k].episode.value >= 0 && rows[k].length.Some?
                               && rows[k].length.value > 0 && PathOf(rows[k], template).Ok?)
                            && DistinctEpisodes(rows) && |rows| == totalEpisodes && RowFrames(rows, |rows|) == totalFrames)
    ensures totalEpisodes != 0 && r.Some? ==> Represents(r.value, rows, template)
  {
    if totalEpisodes == 0 {
      return Some(Dataset([], []));
    }
    var read := ReadRoutes(rows, template);
    if read.None? {
      return None;
    }
    var routes, files := read.value.routes, read.value.dataFiles;
    StrictMeansDistinct(routes, files, rows, template);
    FramesSorted(routes);
    RouteFrames(routes, files, rows, template, |rows|);
    LengthsArePositive(routes, files, rows, template);
    var sorted := SortRoutes(routes);
    var distinct := NoDuplicates(sorted);
    if !distinct || |sorted| != totalEpisodes {
      return None;
    }
    var counted := CountsFrames(sorted, totalFrames);
    if !counted {
      return None;
    }
    SortedRepresents(routes, files, rows, template);
    r := Some(Dataset(sorted, files));
  }

  // Looking up ---------------------------------------------------------------------------------------

  /** First route whose episode is not below the wanted one. */
  method LowerBound(routes: seq<Route>, episode: int) returns (r: nat)
    requires StrictlyOrdered(routes)
    ensures r <= |routes|
    ensures forall i :: 0 <= i < r ==> routes[i].episode < episode
    ensures forall i :: r <= i < |routes| ==> routes[i].episode >= episode
  {
    r := 0;
    var end := |routes|;
    while r < end
      invariant r <= end <= |routes|
      invariant forall i :: 0 <= i < r ==> routes[i].episode < episode
      invariant forall i :: end <= i < |routes| ==> routes[i].episode >= episode
    {
      var mid := (r + end) / 2;
      if routes[mid].episode < episode {
        r := mid + 1;
      } else {
        end := mid;
      }
    }
  }

  method FindEpisodeRoute(ds: Dataset, episode: int) returns (r: Option<Route>)
    requires StrictlyOrdered(ds.routes)
    ensures r.Some? ==> r.value in ds.routes && r.value.episode == episode
    ensures r.None? ==> forall i :: 0 <= i < |ds.routes| ==> ds.routes[i].episode != episode
  {
    var at := LowerBound(ds.routes, episode);
    if at == |ds.routes| || ds.routes[at].episode != episode {
      return None;
    }
    r := Some(ds.routes[at]);
  }

  /** The file holds one of the episodes. */
  ghost predicate Serves(ds: Dataset, episodes: seq<int>, n: nat, path: string)
    requires n <= |episodes|
  {
    exists i, j :: 0 <= i < |ds.routes| && 0 <= j < n && ServesBy(ds, episodes, i, j, path)
  }

  ghost predicate ServesBy(ds: Dataset, episodes: seq<int>, i: nat, j: nat, path: string)
    requires i < |ds.routes| && j < |episodes|
  {
    && ds.routes[i].episode == episodes[j]
    && ds.routes[i].file < |ds.dataFiles| && ds.dataFiles[ds.routes[i].file] == path
  }

  ghost predicate FilesInRange(ds: Dataset) {
    forall i :: 0 <= i < |ds.routes| ==> ds.routes[i].file < |ds.dataFiles|
  }

  /** The data files of the episodes that exist, sorted and without duplicates. */
  method ResolveDataFiles(ds: Dataset, episodes: seq<int>) returns (files: seq<string>)
    requires StrictlyOrdered(ds.routes) && FilesInRange(ds)
    ensures Increasing(files)
    ensures forall path :: path in files <==> Serves(ds, episodes, |episodes|, path)
  {
    var result: seq<string>, seen: set<string> := [], {};
    for k := 0 to |episodes|
      invariant Distinct(result) && forall path :: path in seen <==> path in result
      invariant forall path :: path in result <==> Serves(ds, episodes, k, path)
    {
      ghost var before := result;
      var at := LowerBound(ds.routes, episodes[k]);
      if at < |ds.routes| && ds.routes[at].episode == episodes[k] {
        var path := ds.dataFiles[ds.routes[at].file];
        if path !in seen {
          seen := seen + {path};
          result := result + [path];
        }
        assert ServesBy(ds, episodes, at, k, path);
      }
      forall path ensures path in result <==> Serves(ds, episodes, k + 1, path) {
        ServesOneMore(ds, episodes, k, path, at);
      }
    }
    SortedIsIncreasing(result);
    files := SortStrings(result);
  }

  lemma ServesOneMore(ds: Dataset, episodes: seq<int>, k: nat, path: string, at: nat)
    requires k < |episodes| && StrictlyOrdered(ds.routes) && at <= |ds.routes| && FilesInRange(ds)
    requires forall i :: 0 <= i < at ==> ds.routes[i].episode < episodes[k]
    requires forall i :: at <= i < |ds.routes| ==> ds.routes[i].episode >= episodes[k]
    ensures Serves(ds, episodes, k + 1, path) <==>
            Serves(ds, episodes, k, path) || (at < |ds.routes| && ServesBy(ds, episodes, at, k, path))
  {
    if Serves(ds, episodes, k + 1, path) && !Serves(ds, episodes, k, path) {
      var i, j :| 0 <= i < |ds.routes| && 0 <= j < k + 1 && ServesBy(ds, episodes, i, j, path);
      assert j == k && i >= at;
    }
    if Serves(ds, episodes, k, path) {
      var i, j :| 0 <= i < |ds.routes| && 0 <= j < k && ServesBy(ds, episodes, i, j, path);
      assert ServesBy(ds, episodes, i, j, path);
    }
  }
}
