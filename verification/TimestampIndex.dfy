/** TimestampIndex and the lookup over several files, as the loops that compute them. */
module TimestampIndex {
  import opened Collections
  import opened TimestampRows

  function Insert(sorted: seq<IndexRow>, row: IndexRow): (r: seq<IndexRow>)
    requires SortedByKey(sorted)
    ensures SortedByKey(r) && multiset(r) == multiset(sorted) + multiset{row}
  {
    if sorted == [] then [row]
    else if !KeyLess(row.key, sorted[|sorted| - 1].key) then sorted + [row]
    else
      var front, last := sorted[..|sorted| - 1], sorted[|sorted| - 1];
      var rest := Insert(front, row);
      InsertedBeforeLast(front, row, rest, last);
      assert sorted == front + [last];
      rest + [last]
  }

  lemma InsertedBeforeLast(front: seq<IndexRow>, row: IndexRow, rest: seq<IndexRow>, last: IndexRow)
    requires SortedByKey(front + [last]) && KeyLess(row.key, last.key)
    requires SortedByKey(rest) && multiset(rest) == multiset(front) + multiset{row}
    ensures SortedByKey(rest + [last])
  {
    forall i | 0 <= i < |rest| ensures !KeyLess(last.key, rest[i].key) {
      assert rest[i] in multiset(rest);
      if rest[i] != row {
        assert rest[i] in multiset(front);
        var j :| 0 <= j < |front| && front[j] == rest[i];
        assert (front + [last])[j] == rest[i] && (front + [last])[|front|] == last;
      }
    }
  }

  /** Stands for the library sort. */
  function Sort(rows: seq<IndexRow>): (r: seq<IndexRow>)
    ensures SortedByKey(r) && multiset(r) == multiset(rows)
  {
    if rows == [] then []
    else
      assert rows == rows[..|rows| - 1] + [rows[|rows| - 1]];
      Insert(Sort(rows[..|rows| - 1]), rows[|rows| - 1])
  }

  /** First row whose key is not below `key`. */
  method LowerBound(rows: seq<IndexRow>, key: Key) returns (r: nat)
    requires SortedByKey(rows)
    ensures r <= |rows|
    ensures forall i :: 0 <= i < r ==> KeyLess(rows[i].key, key)
    ensures forall i :: r <= i < |rows| ==> !KeyLess(rows[i].key, key)
  {
    r := 0;
    var end := |rows|;
    while r < end
      invariant r <= end <= |rows|
      invariant forall i :: 0 <= i < r ==> KeyLess(rows[i].key, key)
      invariant forall i :: end <= i < |rows| ==> !KeyLess(rows[i].key, key)
    {
      var mid := (r + end) / 2;
      if KeyLess(rows[mid].key, key) {
        r := mid + 1;
      } else {
        end := mid;
      }
    }
  }

  /** First row at or after `begin` whose key is above `key`. */
  method UpperBound(rows: seq<IndexRow>, key: Key, begin: nat) returns (r: nat)
    requires SortedByKey(rows) && begin <= |rows|
    ensures begin <= r <= |rows|
    ensures forall i :: begin <= i < r ==> !KeyLess(key, rows[i].key)
    ensures forall i :: r <= i < |rows| ==> KeyLess(key, rows[i].key)
  {
    r := begin;
    var end := |rows|;
    while r < end
      invariant begin <= r <= end <= |rows|
      invariant forall i :: begin <= i < r ==> !KeyLess(key, rows[i].key)
      invariant forall i :: end <= i < |rows| ==> KeyLess(key, rows[i].key)
    {
      var mid := (r + end) / 2;
      if KeyLess(key, rows[mid].key) {
        end := mid;
      } else {
        r := mid + 1;
      }
    }
  }

  /** Count the rows with the key; the timestamp is set only for a single row. */
  method Find(rows: seq<IndexRow>, key: Key) returns (r: Match)
    requires SortedByKey(rows)
    ensures r == FromBlock(Matching(rows, key))
  {
    if |rows| == 0 {
      return NoMatch;
    }
    var begin := LowerBound(rows, key);
    var end := UpperBound(rows, key, begin);
    BlockMatches(rows, key, begin, end);
    if end - begin == 1 {
      r := Match(1, rows[begin].timestamp, rows[begin].hasTimestamp);
    } else {
      r := Match(end - begin, 0.0, false);
    }
  }

  function RowOf(row: RawRow): IndexRow
    requires row.episode.Some? && row.frame.Some?
  {
    IndexRow(Key(row.episode.value, row.frame.value),
             if row.timestamp.Some? then row.timestamp.value else 0.0, row.timestamp.Some?)
  }

  lemma KeepStep(raw: seq<RawRow>, i: nat)
    requires i < |raw|
    ensures Keep(raw[..i + 1]) ==
            Keep(raw[..i]) + (if raw[i].episode.None? || raw[i].frame.None? then [] else [RowOf(raw[i])])
  {
    assert raw[..i + 1][..i] == raw[..i];
  }

  /** Store the next row; is it in key order after the ones before it? */
  method StoreRow(rows: array<IndexRow>, count: nat, row: IndexRow, ghost before: seq<IndexRow>) returns (inOrder: bool)
    requires count < rows.Length && rows[..count] == before
    modifies rows
    ensures rows[..count + 1] == before + [row]
    ensures inOrder && SortedByKey(before) ==> SortedByKey(before + [row])
  {
    rows[count] := row;
    assert rows[..count + 1] == before + [row];
    inOrder := count == 0 || !KeyLess(rows[count].key, rows[count - 1].key);
    if inOrder && SortedByKey(before) {
      assert count > 0 ==> rows[count - 1] == before[count - 1];
      SortedExtends(before, row);
    }
  }

  /** Read the rows with both keys into the buffer, noting whether they come in key order. */
  method FillRows(raw: seq<RawRow>, rows: array<IndexRow>) returns (ok: bool, count: nat, sorted: bool)
    modifies rows
    ensures ok <==> |Keep(raw)| <= rows.Length
    ensures ok ==> count <= rows.Length && rows[..count] == Keep(raw) && (sorted ==> SortedByKey(Keep(raw)))
  {
    ok, count, sorted := true, 0, true;
    var i := 0;
    ghost var kept := [];
    while i < |raw|
      invariant i <= |raw| && count <= rows.Length
      invariant kept == Keep(raw[..i]) && rows[..count] == kept
      invariant sorted ==> SortedByKey(kept)
    {
      KeepStep(raw, i);
      KeepGrows(raw, i + 1);
      if raw[i].episode.Some? && raw[i].frame.Some? {
        if count == rows.Length {
          return false, count, sorted;
        }
        var row := RowOf(raw[i]);
        var inOrder := StoreRow(rows, count, row, kept);
        sorted := sorted && inOrder;
        count := count + 1;
        kept := kept + [row];
      }
      i := i + 1;
    }
    assert raw[..i] == raw;
  }

  /** Read a shard into a buffer sized by the row count its footer promised; None when the file
      turned out to hold more rows than that. */
  method LoadRows(raw: seq<RawRow>, rowCount: nat) returns (r: Option<seq<IndexRow>>)
    ensures r.None? <==> |Keep(raw)| > rowCount
    ensures r.Some? ==> Indexes(r.value, raw) && |r.value| <= rowCount
  {
    var rows := new IndexRow[rowCount](_ => IndexRow(Key(0, 0), 0.0, false));
    var ok, count, sorted := FillRows(raw, rows);
    if !ok {
      return None;
    }
    var loaded := rows[..count];
    KeepIsClean(raw);
    if !sorted {
      loaded := Sort(loaded);
      CleanSort(Keep(raw), loaded);
      SameSize(Keep(raw), loaded);
    }
    r := Some(loaded);
  }

  lemma {:induction false} KeepIsClean(raw: seq<RawRow>)
    ensures Clean(Keep(raw))
  {
    if raw != [] {
      KeepIsClean(raw[..|raw| - 1]);
    }
  }

  lemma SortedExtends(rows: seq<IndexRow>, row: IndexRow)
    requires SortedByKey(rows) && (rows == [] || !KeyLess(row.key, rows[|rows| - 1].key))
    ensures SortedByKey(rows + [row])
  {
  }

  lemma CleanSort(rows: seq<IndexRow>, sorted: seq<IndexRow>)
    requires Clean(rows) && multiset(sorted) == multiset(rows)
    ensures Clean(sorted)
  {
    forall i | 0 <= i < |sorted| ensures sorted[i].hasTimestamp || sorted[i].timestamp == 0.0 {
      assert sorted[i] in multiset(rows);
    }
  }

  lemma {:induction false} KeepGrows(raw: seq<RawRow>, n: nat)
    requires n <= |raw|
    ensures |Keep(raw[..n])| <= |Keep(raw)|
    decreases |raw| - n
  {
    if n < |raw| {
      assert raw[..n + 1][..n] == raw[..n];
      KeepGrows(raw, n + 1);
    } else {
      assert raw[..n] == raw;
    }
  }
}
