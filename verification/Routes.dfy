/** Episode routes: which data file holds which episode, as read from the episode metadata and looked up
    by binary search. */
module Routes {
  import opened Collections
  import opened Paths
  import opened Templates

  /** A metadata row; each column may be NULL. */
  datatype EpisodeRow = EpisodeRow(episode: Option<int>, length: Option<int>, chunk: Option<int>, file: Option<int>)

  datatype Route = Route(episode: int, length: int, file: nat)

  /** Routes in episode order, and the distinct data files they refer to. */
  datatype Dataset = Dataset(routes: seq<Route>, dataFiles: seq<string>)

  const MAX_FRAMES: int := 0x7FFF_FFFF_FFFF_FFFF

  function PathOf(row: EpisodeRow, template: string): Result {
    if row.chunk.Some? && row.file.Some? then Expanded(template, Fields(row.chunk.value, row.file.value, false, "")) else Error
  }

  predicate RowOk(row: EpisodeRow, template: string) {
    && row.episode.Some? && row.length.Some? && row.chunk.Some? && row.file.Some?
    && row.episode.value >= 0 && row.length.value > 0
    && PathOf(row, template).Ok?
  }

  ghost predicate RowsOk(rows: seq<EpisodeRow>, template: string, n: nat) {
    n <= |rows| && forall k :: 0 <= k < n ==> RowOk(rows[k], template)
  }

  ghost predicate DistinctEpisodes(rows: seq<EpisodeRow>) {
    forall i, j :: 0 <= i < j < |rows| ==> rows[i].episode != rows[j].episode
  }

  function Frames(routes: seq<Route>, n: nat): int
    requires n <= |routes|
  {
    if n == 0 then 0 else Frames(routes, n - 1) + routes[n - 1].length
  }

  /** The route leads where the row says. */
  ghost predicate Leads(route: Route, dataFiles: seq<string>, row: EpisodeRow, template: string) {
    && row.episode == Some(route.episode) && row.length == Some(route.length)
    && route.file < |dataFiles| && PathOf(row, template) == Ok(dataFiles[route.file])
  }

  ghost predicate StrictlyOrdered(routes: seq<Route>) {
    forall i, j :: 0 <= i < j < |routes| ==> routes[i].episode < routes[j].episode
  }

  ghost predicate Ordered(routes: seq<Route>) {
    forall i, j :: 0 <= i < j < |routes| ==> routes[i].episode <= routes[j].episode
  }

  ghost predicate Distinct(files: seq<string>) {
    forall i, j :: 0 <= i < j < |files| ==> files[i] != files[j]
  }

  ghost predicate HasRow(ds: Dataset, rows: seq<EpisodeRow>, template: string, j: int) {
    0 <= j < |ds.routes| && exists k :: 0 <= k < |rows| && Leads(ds.routes[j], ds.dataFiles, rows[k], template)
  }

  ghost predicate HasRoute(ds: Dataset, rows: seq<EpisodeRow>, template: string, k: int) {
    0 <= k < |rows| && exists j :: 0 <= j < |ds.routes| && Leads(ds.routes[j], ds.dataFiles, rows[k], template)
  }

  /** The data set has one route per row, in episode order. */
  ghost predicate Represents(ds: Dataset, rows: seq<EpisodeRow>, template: string) {
    && StrictlyOrdered(ds.routes) && Distinct(ds.dataFiles) && |ds.routes| == |rows|
    && (forall j :: 0 <= j < |ds.routes| ==> HasRow(ds, rows, template, j))
    && (forall k :: 0 <= k < |rows| ==> HasRoute(ds, rows, template, k))
  }

  // Sorting ------------------------------------------------------------------------------------------

  function InsertRoute(sorted: seq<Route>, route: Route): (r: seq<Route>)
    requires Ordered(sorted)
    ensures Ordered(r) && multiset(r) == multiset(sorted) + multiset{route}
  {
    if sorted == [] then [route]
    else
      var front, last := sorted[..|sorted| - 1], sorted[|sorted| - 1];
      assert sorted == front + [last];
      if route.episode >= last.episode then sorted + [route]
      else
        var rest := InsertRoute(front, route);
        InsertedBelow(front, route, rest, last);
        rest + [last]
  }

  lemma InsertedBelow(front: seq<Route>, route: Route, rest: seq<Route>, last: Route)
    requires Ordered(front + [last]) && route.episode < last.episode
    requires Ordered(rest) && multiset(rest) == multiset(front) + multiset{route}
    ensures Ordered(rest + [last])
  {
    forall i | 0 <= i < |rest| ensures rest[i].episode <= last.episode {
      assert rest[i] in multiset(rest);
      if rest[i] != route {
        assert rest[i] in multiset(front);
        var j :| 0 <= j < |front| && front[j] == rest[i];
        assert (front + [last])[j] == rest[i] && (front + [last])[|front|] == last;
      }
    }
  }

  /** Stands for the library sort. */
  function SortRoutes(routes: seq<Route>): (r: seq<Route>)
    ensures Ordered(r) && multiset(r) == multiset(routes)
  {
    if routes == [] then []
    else
      assert routes == routes[..|routes| - 1] + [routes[|routes| - 1]];
      InsertRoute(SortRoutes(routes[..|routes| - 1]), routes[|routes| - 1])
  }

  /** Strings in lexicographic order. */
  predicate StringLess(a: string, b: string) {
    b != "" && (a == "" || a[0] < b[0] || (a[0] == b[0] && StringLess(a[1..], b[1..])))
  }

  lemma {:induction false} StringLessTotal(a: string, b: string)
    ensures StringLess(a, b) || a == b || StringLess(b, a)
    ensures !(StringLess(a, b) && StringLess(b, a)) && !StringLess(a, a)
  {
    if a != "" {
      StringLessTotal(a[1..], a[1..]);
    }
    if a != "" && b != "" && a[0] == b[0] {
      StringLessTotal(a[1..], b[1..]);
      assert a == [a[0]] + a[1..] && b == [b[0]] + b[1..];
    }
  }

  lemma {:induction false} StringLessTransitive(a: string, b: string, c: string)
    requires StringLess(a, b) && StringLess(b, c)
    ensures StringLess(a, c)
  {
    if a != "" && a[0] == b[0] && b[0] == c[0] {
      StringLessTransitive(a[1..], b[1..], c[1..]);
    }
  }

  ghost predicate Rises(files: seq<string>, i: nat)
    requires i + 1 < |files|
  {
    StringLess(files[i], files[i + 1])
  }

  /** Strictly increasing, hence without duplicates. */
  ghost predicate Increasing(files: seq<string>) {
    forall i: nat :: i + 1 < |files| ==> Rises(files, i)
  }

  function InsertString(sorted: seq<string>, s: string): (r: seq<string>)
    ensures forall x :: x in r <==> x == s || x in sorted
    ensures |r| == |sorted| + 1
  {
    if sorted == [] || StringLess(s, sorted[0]) then [s] + sorted
    else [sorted[0]] + InsertString(sorted[1..], s)
  }

  lemma {:induction false} InsertKeepsIncreasing(sorted: seq<string>, s: string)
    requires Increasing(sorted) && s !in sorted
    ensures Increasing(InsertString(sorted, s))
    ensures sorted != [] ==> InsertString(sorted, s)[0] == if StringLess(s, sorted[0]) then s else sorted[0]
  {
    var r := InsertString(sorted, s);
    if sorted == [] || StringLess(s, sorted[0]) {
      forall i: nat | i + 1 < |r| ensures Rises(r, i) {
        assert i > 0 ==> Rises(sorted, i - 1);
      }
    } else {
      StringLessTotal(s, sorted[0]);
      var rest := sorted[1..];
      forall i: nat | i + 1 < |rest| ensures Rises(rest, i) {
        assert Rises(sorted, i + 1);
      }
      InsertKeepsIncreasing(rest, s);
      var inserted := InsertString(rest, s);
      forall i: nat | i + 1 < |r| ensures Rises(r, i) {
        if i == 0 {
          assert rest != [] ==> Rises(sorted, 0);
        } else {
          assert Rises(inserted, i - 1);
        }
      }
    }
  }

  /** Stands for the library sort of distinct strings. */
  function SortStrings(files: seq<string>): (r: seq<string>)
    ensures forall x :: x in r <==> x in files
    ensures |r| == |files|
  {
    if files == [] then [] else InsertString(SortStrings(files[..|files| - 1]), files[|files| - 1])
  }

  lemma {:induction false} SortedIsIncreasing(files: seq<string>)
    requires Distinct(files)
    ensures Increasing(SortStrings(files))
  {
    if files != [] {
      SortedIsIncreasing(files[..|files| - 1]);
      InsertKeepsIncreasing(SortStrings(files[..|files| - 1]), files[|files| - 1]);
    }
  }
}
