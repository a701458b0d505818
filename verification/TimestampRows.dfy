/** Frame rows of a data shard, the filtered query over them, and the sorted index that answers the
    same question. Timestamps are exact reals. */
module TimestampRows {
  import opened Collections
  datatype Key = Key(episode: int, frame: int)

  /** A row as stored; each column may be NULL. */
  datatype RawRow = RawRow(episode: Option<int>, frame: Option<int>, timestamp: Option<real>)

  datatype IndexRow = IndexRow(key: Key, timestamp: real, hasTimestamp: bool)

  datatype Match = Match(count: nat, timestamp: real, hasTimestamp: bool)

  datatype Merged = Ok(matched: Match) | TooManyRows

  const MAX_COUNT: nat := 0x7FFF_FFFF_FFFF_FFFF
  const NoMatch := Match(0, 0.0, false)

  predicate KeyLess(a: Key, b: Key) {
    a.episode < b.episode || (a.episode == b.episode && a.frame < b.frame)
  }

  // The plain query

  predicate Wanted(row: RawRow, key: Key) {
    row.episode == Some(key.episode) && row.frame == Some(key.frame)
  }

  /** Timestamps of the rows that join with the key; NULL keys never do. */
  function Selected(rows: seq<RawRow>, key: Key): seq<Option<real>> {
    if rows == [] then []
    else
      var last := rows[|rows| - 1];
      Selected(rows[..|rows| - 1], key) + if Wanted(last, key) then [last.timestamp] else []
  }

  /** SQL min: ignores NULLs, NULL when nothing is left. */
  function Least(timestamps: seq<Option<real>>): Option<real> {
    if timestamps == [] then None
    else
      var rest, last := Least(timestamps[..|timestamps| - 1]), timestamps[|timestamps| - 1];
      if last.None? || (rest.Some? && rest.value <= last.value) then rest else last
  }

  /** The query's answer for one key. */
  function Answer(selected: seq<Option<real>>): Match {
    match Least(selected)
    case Some(t) => Match(|selected|, t, true)
    case None => Match(|selected|, 0.0, false)
  }

  /** All the caller of a lookup observes: the count, and the timestamp of a single row. */
  predicate Agree(a: Match, b: Match) {
    a.count == b.count && (a.count == 1 ==> a == b)
  }

  lemma {:induction false} SelectedAppends(a: seq<RawRow>, b: seq<RawRow>, key: Key)
    ensures Selected(a + b, key) == Selected(a, key) + Selected(b, key)
  {
    if b == [] {
      assert a + b == a;
    } else {
      assert (a + b)[..|a + b| - 1] == a + b[..|b| - 1];
      SelectedAppends(a, b[..|b| - 1], key);
    }
  }

  lemma AnswerToOne(t: Option<real>)
    ensures Answer([t]) == Match(1, if t.Some? then t.value else 0.0, t.Some?)
  {
    assert [t][..0] == [];
    assert Least([]) == None;
    assert Least([t]) == t;
  }

  // The index

  function Keep(rows: seq<RawRow>): (r: seq<IndexRow>)
    ensures |r| <= |rows|
  {
    if rows == [] then []
    else Keep(rows[..|rows| - 1]) + KeptRow(rows[|rows| - 1])
  }

  function KeptRow(row: RawRow): seq<IndexRow> {
    if row.episode.None? || row.frame.None? then []
    else [IndexRow(Key(row.episode.value, row.frame.value),
                   if row.timestamp.Some? then row.timestamp.value else 0.0, row.timestamp.Some?)]
  }

  function Matching(rows: seq<IndexRow>, key: Key): seq<IndexRow> {
    if rows == [] then []
    else
      var last := rows[|rows| - 1];
      Matching(rows[..|rows| - 1], key) + if last.key == key then [last] else []
  }

  function Stamp(row: IndexRow): Option<real> {
    if row.hasTimestamp then Some(row.timestamp) else None
  }

  function Stamps(rows: seq<IndexRow>): (r: seq<Option<real>>)
    ensures |r| == |rows| && forall i :: 0 <= i < |r| ==> r[i] == Stamp(rows[i])
  {
    seq(|rows|, i requires 0 <= i < |rows| => Stamp(rows[i]))
  }

  ghost predicate SortedByKey(rows: seq<IndexRow>) {
    forall i, j :: 0 <= i <= j < |rows| ==> !KeyLess(rows[j].key, rows[i].key)
  }

  /** `index` holds the rows that any key can select, in key order. */
  ghost predicate Indexes(index: seq<IndexRow>, rows: seq<RawRow>) {
    SortedByKey(index) && multiset(index) == multiset(Keep(rows)) && Clean(index)
  }

  /** A row without a timestamp holds zero. */
  ghost predicate Clean(rows: seq<IndexRow>) {
    forall i :: 0 <= i < |rows| ==> (rows[i].hasTimestamp || rows[i].timestamp == 0.0)
  }

  lemma {:induction false} MatchingAppends(a: seq<IndexRow>, b: seq<IndexRow>, key: Key)
    ensures Matching(a + b, key) == Matching(a, key) + Matching(b, key)
  {
    if b == [] {
      assert a + b == a;
    } else {
      assert (a + b)[..|a + b| - 1] == a + b[..|b| - 1];
      MatchingAppends(a, b[..|b| - 1], key);
    }
  }

  lemma {:induction false} MatchingCounts(rows: seq<IndexRow>, key: Key, row: IndexRow)
    ensures multiset(Matching(rows, key))[row] == if row.key == key then multiset(rows)[row] else 0
  {
    if rows != [] {
      assert rows == rows[..|rows| - 1] + [rows[|rows| - 1]];
      MatchingCounts(rows[..|rows| - 1], key, row);
    }
  }

  lemma MatchingOfSame(a: seq<IndexRow>, b: seq<IndexRow>, key: Key)
    requires multiset(a) == multiset(b)
    ensures multiset(Matching(a, key)) == multiset(Matching(b, key))
  {
    forall row: IndexRow
      ensures multiset(Matching(a, key))[row] == multiset(Matching(b, key))[row]
    {
      MatchingCounts(a, key, row);
      MatchingCounts(b, key, row);
    }
  }

  lemma SameLength(a: seq<IndexRow>, b: seq<IndexRow>)
    requires multiset(a) == multiset(b)
    ensures |a| == |b| && (|a| == 1 ==> a == b)
  {
    assert |a| == |multiset(a)| == |multiset(b)| == |b|;
    if |a| == 1 {
      assert a[0] in multiset(b);
    }
  }

  lemma {:induction false} SelectedIsMatching(rows: seq<RawRow>, key: Key)
    ensures Selected(rows, key) == Stamps(Matching(Keep(rows), key))
  {
    if rows != [] {
      var front, last := rows[..|rows| - 1], rows[|rows| - 1];
      SelectedIsMatching(front, key);
      MatchingAppends(Keep(front), KeptRow(last), key);
      if KeptRow(last) != [] {
        assert KeptRow(last)[..0] == [];
      }
    }
  }

  lemma {:induction false} NothingMatches(rows: seq<IndexRow>, key: Key)
    requires forall i :: 0 <= i < |rows| ==> rows[i].key != key
    ensures Matching(rows, key) == []
  {
    if rows != [] {
      NothingMatches(rows[..|rows| - 1], key);
    }
  }

  lemma {:induction false} EverythingMatches(rows: seq<IndexRow>, key: Key)
    requires forall i :: 0 <= i < |rows| ==> rows[i].key == key
    ensures Matching(rows, key) == rows
  {
    if rows != [] {
      EverythingMatches(rows[..|rows| - 1], key);
    }
  }

  ghost predicate IsBlock(rows: seq<IndexRow>, key: Key, begin: nat, end: nat) {
    && begin <= end <= |rows|
    && (forall i :: 0 <= i < begin ==> rows[i].key != key)
    && (forall i :: begin <= i < end ==> rows[i].key == key)
    && (forall i :: end <= i < |rows| ==> rows[i].key != key)
  }

  lemma BlockMatches(rows: seq<IndexRow>, key: Key, begin: nat, end: nat)
    requires IsBlock(rows, key, begin, end)
    ensures Matching(rows, key) == rows[begin..end]
  {
    assert rows == rows[..begin] + rows[begin..end] + rows[end..];
    MatchingAppends(rows[..begin] + rows[begin..end], rows[end..], key);
    MatchingAppends(rows[..begin], rows[begin..end], key);
    NothingMatches(rows[..begin], key);
    EverythingMatches(rows[begin..end], key);
    NothingMatches(rows[end..], key);
  }

  /** What Find answers from the block of rows with the key. */
  function FromBlock(block: seq<IndexRow>): Match {
    if |block| == 1 then Match(1, block[0].timestamp, block[0].hasTimestamp) else Match(|block|, 0.0, false)
  }

  lemma MatchingIsClean(rows: seq<IndexRow>, key: Key)
    requires Clean(rows)
    ensures Clean(Matching(rows, key))
  {
    var block := Matching(rows, key);
    forall i | 0 <= i < |block| ensures block[i].hasTimestamp || block[i].timestamp == 0.0 {
      assert block[i] in multiset(block);
      MatchingCounts(rows, key, block[i]);
      assert block[i] in rows;
    }
  }

  lemma BlockTracks(block: seq<IndexRow>)
    requires Clean(block)
    ensures Tracks(FromBlock(block), Stamps(block))
  {
    if |block| == 1 {
      AnswerToOne(Stamp(block[0]));
      assert Stamps(block) == [Stamp(block[0])];
    }
  }

  /** The index and the query agree on every key of every shard. */
  lemma IndexAgreesWithQuery(index: seq<IndexRow>, rows: seq<RawRow>, key: Key)
    requires Indexes(index, rows)
    ensures Tracks(FromBlock(Matching(index, key)), Selected(rows, key))
    ensures Agree(FromBlock(Matching(index, key)), Answer(Selected(rows, key)))
  {
    var block := Matching(index, key);
    MatchingOfSame(index, Keep(rows), key);
    SameLength(block, Matching(Keep(rows), key));
    SelectedIsMatching(rows, key);
    MatchingIsClean(index, key);
    BlockTracks(block);
    TracksSame(FromBlock(block), Stamps(block), Selected(rows, key));
  }

  /** Only the number of rows, and a single row's timestamp, matter. */
  lemma TracksSame(m: Match, a: seq<Option<real>>, b: seq<Option<real>>)
    requires Tracks(m, a) && |a| == |b| && (|a| == 1 ==> a == b)
    ensures Tracks(m, b) && Agree(m, Answer(b))
  {
  }

  // Combining the answers of several files

  function Merge(result: Match, part: Match): Merged {
    if part.count > MAX_COUNT - result.count then TooManyRows
    else if part.hasTimestamp then Ok(Match(result.count + part.count, part.timestamp, true))
    else Ok(result.(count := result.count + part.count))
  }

  /** What matters of a partial answer about the selected rows. */
  ghost predicate Tracks(m: Match, selected: seq<Option<real>>) {
    && m.count == |selected|
    && (selected == [] ==> m == NoMatch)
    && (|selected| == 1 ==> m == Answer(selected))
  }

  lemma AnswerTracks(selected: seq<Option<real>>)
    ensures Tracks(Answer(selected), selected)
  {
  }

  lemma MergeTracks(m: Match, part: Match, a: seq<Option<real>>, b: seq<Option<real>>)
    requires Tracks(m, a) && Tracks(part, b) && |a| <= 0x7FFF_FFFF_FFFF_FFFF
    ensures Merge(m, part).Ok? <==> |a| + |b| <= 0x7FFF_FFFF_FFFF_FFFF
    ensures Merge(m, part).Ok? ==> Tracks(Merge(m, part).matched, a + b)
  {
    if |a| + |b| == 1 {
      if a == [] {
        assert a + b == b;
        AnswerToOne(b[0]);
        assert b == [b[0]];
      } else {
        assert a + b == a;
      }
    }
  }

  lemma TracksReordered(m: Match, a: seq<Option<real>>, b: seq<Option<real>>)
    requires Tracks(m, a) && multiset(a) == multiset(b)
    ensures Tracks(m, b) && Agree(m, Answer(b))
  {
    assert |a| == |multiset(a)| == |multiset(b)| == |b|;
    if |a| == 1 {
      assert a[0] in multiset(b);
      assert a == b;
    }
    TracksSame(m, a, b);
  }
}
