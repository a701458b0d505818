/** One lookup of sorted keys in several shards: indexed shards answer from their index, the others
    together through one filtered query. */
module TimestampScan {
  import opened Collections
  import opened TimestampRows
  import opened TimestampIndex

  /** Rows of all the shards, in the order they were selected. */
  function AllRows(contents: seq<seq<RawRow>>, n: nat): seq<RawRow>
    requires n <= |contents|
  {
    if n == 0 then [] else AllRows(contents, n - 1) + contents[n - 1]
  }

  /** Rows of the shards that have an index, or of those that have none. */
  ghost function PartRows(contents: seq<seq<RawRow>>, indexes: seq<Option<seq<IndexRow>>>, n: nat, indexed: bool): seq<RawRow>
    requires n <= |contents| == |indexes|
  {
    if n == 0 then []
    else if indexes[n - 1].Some? == indexed then PartRows(contents, indexes, n - 1, indexed) + contents[n - 1]
    else PartRows(contents, indexes, n - 1, indexed)
  }

  /** A count of rows that concatenation adds up. */
  ghost predicate AddsUp(count: seq<RawRow> -> nat) {
    count([]) == 0 && forall a, b :: count(a + b) == count(a) + count(b)
  }

  /** How many rows with timestamp t the key selects. */
  ghost function CountOf(key: Key, t: Option<real>): seq<RawRow> -> nat {
    (rows: seq<RawRow>) => multiset(Selected(rows, key))[t]
  }

  lemma CountAddsUp(key: Key, t: Option<real>)
    ensures AddsUp(CountOf(key, t))
  {
    forall a: seq<RawRow>, b: seq<RawRow>
      ensures CountOf(key, t)(a + b) == CountOf(key, t)(a) + CountOf(key, t)(b)
    {
      SelectedAppends(a, b, key);
    }
  }

  lemma {:induction false} PartsMakeUpAll(contents: seq<seq<RawRow>>, indexes: seq<Option<seq<IndexRow>>>, n: nat,
                                          count: seq<RawRow> -> nat)
    requires n <= |contents| == |indexes| && AddsUp(count)
    ensures count(PartRows(contents, indexes, n, true)) + count(PartRows(contents, indexes, n, false))
            == count(AllRows(contents, n))
  {
    if n > 0 {
      PartsMakeUpAll(contents, indexes, n - 1, count);
      var indexed := indexes[n - 1].Some?;
      assert count(PartRows(contents, indexes, n, indexed))
          == count(PartRows(contents, indexes, n - 1, indexed)) + count(contents[n - 1]);
    }
  }

  ghost predicate GoodIndexes(contents: seq<seq<RawRow>>, indexes: seq<Option<seq<IndexRow>>>) {
    && |contents| == |indexes|
    && forall i: nat :: i < |indexes| ==> GoodIndexAt(contents, indexes, i)
  }

  ghost predicate GoodIndexAt(contents: seq<seq<RawRow>>, indexes: seq<Option<seq<IndexRow>>>, i: nat) {
    i < |contents| == |indexes| && (indexes[i].Some? ==> Indexes(indexes[i].value, contents[i]))
  }

  ghost predicate StrictlySorted(keys: seq<Key>) {
    forall i, j :: 0 <= i < j < |keys| ==> KeyLess(keys[i], keys[j])
  }

  /** `order` lists 0 .. n-1, each once. */
  ghost predicate Permutes(order: seq<nat>, n: nat) {
    && (forall j :: 0 <= j < |order| ==> order[j] < n)
    && (forall i, j :: 0 <= i < j < |order| ==> order[i] != order[j])
    && (forall k :: 0 <= k < n ==> k in order)
  }

  ghost predicate TracksKey(m: Match, rows: seq<RawRow>, key: Key) {
    Tracks(m, Selected(rows, key)) && |Selected(rows, key)| <= 0x7FFF_FFFF_FFFF_FFFF
  }

  ghost predicate TracksAll(matches: seq<Match>, rows: seq<RawRow>, keys: seq<Key>) {
    |matches| == |keys| && forall k :: 0 <= k < |keys| ==> TracksKey(matches[k], rows, keys[k])
  }

  ghost predicate Overflows(rows: seq<RawRow>, keys: seq<Key>) {
    exists k :: 0 <= k < |keys| && |Selected(rows, keys[k])| > 0x7FFF_FFFF_FFFF_FFFF
  }

  lemma MergeTracksKey(m: Match, part: Match, rows: seq<RawRow>, more: seq<RawRow>, key: Key)
    requires TracksKey(m, rows, key) && Tracks(part, Selected(more, key))
    ensures Merge(m, part).Ok? <==> |Selected(rows + more, key)| <= MAX_COUNT
    ensures Merge(m, part).Ok? ==> TracksKey(Merge(m, part).matched, rows + more, key)
  {
    SelectedAppends(rows, more, key);
    MergeTracks(m, part, Selected(rows, key), Selected(more, key));
  }

  /** What an index finds for every key. */
  function Found(index: seq<IndexRow>, keys: seq<Key>): (r: seq<Match>)
    ensures |r| == |keys| && forall k :: 0 <= k < |r| ==> r[k] == FromBlock(Matching(index, keys[k]))
  {
    seq(|keys|, k requires 0 <= k < |keys| => FromBlock(Matching(index, keys[k])))
  }

  /** What the filtered query answers for every key. */
  function Answers(rows: seq<RawRow>, keys: seq<Key>): (r: seq<Match>)
    ensures |r| == |keys| && forall k :: 0 <= k < |r| ==> r[k] == Answer(Selected(rows, keys[k]))
  {
    seq(|keys|, k requires 0 <= k < |keys| => Answer(Selected(rows, keys[k])))
  }

  predicate CanMerge(matches: seq<Match>, parts: seq<Match>, k: nat)
    requires k < |matches| == |parts|
  {
    Merge(matches[k], parts[k]).Ok?
  }

  /** Every match with its part, unless one of them is too much. */
  function MergeAll(matches: seq<Match>, parts: seq<Match>): (r: Option<seq<Match>>)
    requires |matches| == |parts|
    ensures r.Some? <==> forall k: nat :: k < |matches| ==> CanMerge(matches, parts, k)
    ensures r.Some? ==> |r.value| == |matches|
    ensures r.Some? ==> forall k: nat :: k < |matches| ==> r.value[k] == MergedOr(matches[k], parts[k])
  {
    if forall k: nat :: k < |matches| ==> CanMerge(matches, parts, k) then
      Some(seq(|matches|, k requires 0 <= k < |matches| => MergedOr(matches[k], parts[k])))
    else None
  }

  function MergedOr(m: Match, part: Match): (r: Match)
    ensures Merge(m, part).Ok? ==> Merge(m, part) == Ok(r)
  {
    match Merge(m, part)
    case Ok(merged) => merged
    case TooManyRows => m
  }

  /** Merging parts that track further rows: the result tracks all rows, or there are too many. */
  lemma MergeAllTracks(matches: seq<Match>, parts: seq<Match>, keys: seq<Key>, rows: seq<RawRow>, more: seq<RawRow>)
    requires TracksAll(matches, rows, keys) && |parts| == |keys|
    requires forall k :: 0 <= k < |keys| ==> Tracks(parts[k], Selected(more, keys[k]))
    ensures MergeAll(matches, parts).None? <==> Overflows(rows + more, keys)
    ensures MergeAll(matches, parts).Some? ==> TracksAll(MergeAll(matches, parts).value, rows + more, keys)
  {
    forall k: nat | k < |keys|
      ensures CanMerge(matches, parts, k) <==> |Selected(rows + more, keys[k])| <= MAX_COUNT
      ensures CanMerge(matches, parts, k) ==> TracksKey(Merge(matches[k], parts[k]).matched, rows + more, keys[k])
    {
      assert TracksKey(matches[k], rows, keys[k]);
      MergeTracksKey(matches[k], parts[k], rows, more, keys[k]);
    }
  }

  lemma FoundTracks(index: seq<IndexRow>, rows: seq<RawRow>, keys: seq<Key>)
    requires Indexes(index, rows)
    ensures forall k :: 0 <= k < |keys| ==> Tracks(Found(index, keys)[k], Selected(rows, keys[k]))
  {
    forall k | 0 <= k < |keys| ensures Tracks(Found(index, keys)[k], Selected(rows, keys[k])) {
      IndexAgreesWithQuery(index, rows, keys[k]);
    }
  }

  /** Merge what one index finds into the matches. */
  method MergeIndex(matches: seq<Match>, index: seq<IndexRow>, keys: seq<Key>) returns (r: Option<seq<Match>>)
    requires |matches| == |keys| && SortedByKey(index)
    ensures r == MergeAll(matches, Found(index, keys))
  {
    var merged := matches;
    ghost var parts := Found(index, keys);
    for k := 0 to |keys|
      invariant |merged| == |keys|
      invariant forall j: nat :: j < k ==> Merge(matches[j], parts[j]) == Ok(merged[j])
      invariant forall j: nat :: k <= j < |keys| ==> merged[j] == matches[j]
    {
      var found := Find(index, keys[k]);
      match Merge(merged[k], found)
      case TooManyRows =>
        assert !CanMerge(matches, parts, k);
        return None;
      case Ok(m) => merged := merged[k := m];
    }
    AllMerged(matches, parts, merged);
    r := Some(merged);
  }

  lemma AllMerged(matches: seq<Match>, parts: seq<Match>, merged: seq<Match>)
    requires |matches| == |parts| == |merged|
    requires forall k: nat :: k < |matches| ==> Merge(matches[k], parts[k]) == Ok(merged[k])
    ensures MergeAll(matches, parts) == Some(merged)
  {
    assert forall k: nat :: k < |matches| ==> CanMerge(matches, parts, k) && merged[k] == MergedOr(matches[k], parts[k]);
    assert MergeAll(matches, parts).value == merged;
  }

  /** Position of a key that is present. */
  method KeyIndex(keys: seq<Key>, key: Key) returns (r: nat)
    requires StrictlySorted(keys) && key in keys
    ensures r < |keys| && keys[r] == key
  {
    r := 0;
    var end := |keys|;
    ghost var at :| 0 <= at < |keys| && keys[at] == key;
    while r < end
      invariant r <= at <= end <= |keys|
      decreases end - r
    {
      var mid := (r + end) / 2;
      if KeyLess(keys[mid], key) {
        r := mid + 1;
      } else {
        end := mid;
      }
    }
  }

  /** The query returns one row per key, in no particular order. */
  ghost predicate Answered(answers: seq<(Key, Match)>, order: seq<nat>, keys: seq<Key>, rows: seq<RawRow>) {
    && Permutes(order, |keys|) && |answers| == |order|
    && forall j :: 0 <= j < |answers| ==> IsAnswer(answers[j], keys[order[j]], rows)
  }

  ghost predicate IsAnswer(answer: (Key, Match), key: Key, rows: seq<RawRow>) {
    answer == (key, Answer(Selected(rows, key)))
  }

  /** Merge the query's answers into the matches, in whatever order they arrive. */
  method MergeAnswers(matches: seq<Match>, answers: seq<(Key, Match)>, keys: seq<Key>, ghost order: seq<nat>, ghost rows: seq<RawRow>)
    returns (r: Option<seq<Match>>)
    requires |matches| == |keys| && StrictlySorted(keys) && Answered(answers, order, keys, rows)
    ensures r == MergeAll(matches, Answers(rows, keys))
  {
    var merged := matches;
    ghost var parts := Answers(rows, keys);
    for j := 0 to |answers|
      invariant |merged| == |keys|
      invariant forall k: nat :: k < |keys| && k in order[..j] ==> Merge(matches[k], parts[k]) == Ok(merged[k])
      invariant forall k: nat :: k < |keys| && k !in order[..j] ==> merged[k] == matches[k]
    {
      assert IsAnswer(answers[j], keys[order[j]], rows);
      var (key, part) := answers[j];
      var k := KeyIndex(keys, key);
      DistinctKeys(keys, k, order[j]);
      assert order[j] !in order[..j];
      assert order[..j + 1] == order[..j] + [order[j]];
      match Merge(merged[k], part)
      case TooManyRows =>
        assert !CanMerge(matches, parts, k);
        return None;
      case Ok(m) => merged := merged[k := m];
    }
    assert order[..|answers|] == order;
    AllMerged(matches, parts, merged);
    r := Some(merged);
  }

  lemma AnswersTrack(rows: seq<RawRow>, keys: seq<Key>)
    ensures forall k :: 0 <= k < |keys| ==> Tracks(Answers(rows, keys)[k], Selected(rows, keys[k]))
  {
    forall k | 0 <= k < |keys| ensures Tracks(Answers(rows, keys)[k], Selected(rows, keys[k])) {
      AnswerTracks(Selected(rows, keys[k]));
    }
  }

  lemma NoOverflow(matches: seq<Match>, rows: seq<RawRow>, keys: seq<Key>)
    requires TracksAll(matches, rows, keys)
    ensures !Overflows(rows, keys)
  {
    forall k | 0 <= k < |keys| ensures |Selected(rows, keys[k])| <= MAX_COUNT {
      assert TracksKey(matches[k], rows, keys[k]);
    }
  }

  lemma DistinctKeys(keys: seq<Key>, i: nat, j: nat)
    requires StrictlySorted(keys) && i < |keys| && j < |keys| && keys[i] == keys[j]
    ensures i == j
  {
  }

  lemma {:induction false} IndexedRowsGrow(contents: seq<seq<RawRow>>, indexes: seq<Option<seq<IndexRow>>>, n: nat, key: Key)
    requires n <= |contents| == |indexes|
    ensures |Selected(PartRows(contents, indexes, n, true), key)|
            <= |Selected(PartRows(contents, indexes, |contents|, true), key)|
    decreases |contents| - n
  {
    if n < |contents| {
      if indexes[n].Some? {
        SelectedAppends(PartRows(contents, indexes, n, true), contents[n], key);
      }
      IndexedRowsGrow(contents, indexes, n + 1, key);
    }
  }

  lemma AllAreInParts(contents: seq<seq<RawRow>>, indexes: seq<Option<seq<IndexRow>>>, key: Key)
    requires |contents| == |indexes|
    ensures var a, b := PartRows(contents, indexes, |contents|, true), PartRows(contents, indexes, |contents|, false);
            && multiset(Selected(a + b, key)) == multiset(Selected(AllRows(contents, |contents|), key))
            && |Selected(a + b, key)| == |Selected(AllRows(contents, |contents|), key)|
            && |Selected(a, key)| <= |Selected(a + b, key)|
  {
    var a, b := PartRows(contents, indexes, |contents|, true), PartRows(contents, indexes, |contents|, false);
    SelectedAppends(a, b, key);
    forall t: Option<real>
      ensures multiset(Selected(a + b, key))[t] == multiset(Selected(AllRows(contents, |contents|), key))[t]
    {
      CountAddsUp(key, t);
      PartsMakeUpAll(contents, indexes, |contents|, CountOf(key, t));
      assert CountOf(key, t)(a + b) == CountOf(key, t)(AllRows(contents, |contents|));
    }
    SameSize(Selected(a + b, key), Selected(AllRows(contents, |contents|), key));
  }

  /** Too many indexed rows are too many rows. */
  lemma OverflowGrows(contents: seq<seq<RawRow>>, indexes: seq<Option<seq<IndexRow>>>, n: nat, keys: seq<Key>)
    requires n <= |contents| == |indexes|
    requires Overflows(PartRows(contents, indexes, n, true), keys)
    ensures Overflows(AllRows(contents, |contents|), keys)
  {
    var k :| 0 <= k < |keys| && |Selected(PartRows(contents, indexes, n, true), keys[k])| > MAX_COUNT;
    IndexedRowsGrow(contents, indexes, n, keys[k]);
    AllAreInParts(contents, indexes, keys[k]);
  }

  lemma AgreesOnAll(contents: seq<seq<RawRow>>, indexes: seq<Option<seq<IndexRow>>>, keys: seq<Key>, r: Option<seq<Match>>)
    requires |contents| == |indexes|
    requires var rows := PartRows(contents, indexes, |contents|, true) + PartRows(contents, indexes, |contents|, false);
             (r.None? <==> Overflows(rows, keys)) && (r.Some? ==> TracksAll(r.value, rows, keys))
    ensures r.None? <==> Overflows(AllRows(contents, |contents|), keys)
    ensures r.Some? ==> |r.value| == |keys| && forall k :: 0 <= k < |keys| ==>
              Agree(r.value[k], Answer(Selected(AllRows(contents, |contents|), keys[k])))
  {
    var rows := PartRows(contents, indexes, |contents|, true) + PartRows(contents, indexes, |contents|, false);
    var all := AllRows(contents, |contents|);
    forall k | 0 <= k < |keys|
      ensures |Selected(rows, keys[k])| == |Selected(all, keys[k])|
      ensures r.Some? ==> Agree(r.value[k], Answer(Selected(all, keys[k])))
    {
      AllAreInParts(contents, indexes, keys[k]);
      if r.Some? {
        assert TracksKey(r.value[k], rows, keys[k]);
        TracksReordered(r.value[k], Selected(rows, keys[k]), Selected(all, keys[k]));
      }
    }
  }

  /** Merge what every index finds; `all` tells that no shard is left to query. */
  method LookupIndexed(indexes: seq<Option<seq<IndexRow>>>, keys: seq<Key>, ghost contents: seq<seq<RawRow>>)
    returns (r: Option<seq<Match>>, all: bool)
    requires GoodIndexes(contents, indexes)
    ensures r.None? ==> Overflows(AllRows(contents, |contents|), keys)
    ensures r.Some? ==> TracksAll(r.value, PartRows(contents, indexes, |indexes|, true), keys)
    ensures r.Some? && all ==> PartRows(contents, indexes, |indexes|, false) == []
  {
    var matches := seq(|keys|, _ => NoMatch);
    all := true;
    for i := 0 to |indexes|
      invariant TracksAll(matches, PartRows(contents, indexes, i, true), keys)
      invariant all ==> PartRows(contents, indexes, i, false) == []
    {
      var merged := MergeNext(matches, indexes, keys, i, contents);
      if merged.None? {
        return None, all;
      }
      all := all && indexes[i].Some?;
      matches := merged.value;
    }
    r := Some(matches);
  }

  /** The index of shard i, if it has one. */
  method MergeNext(matches: seq<Match>, indexes: seq<Option<seq<IndexRow>>>, keys: seq<Key>, i: nat, ghost contents: seq<seq<RawRow>>)
    returns (r: Option<seq<Match>>)
    requires GoodIndexes(contents, indexes) && i < |indexes|
    requires TracksAll(matches, PartRows(contents, indexes, i, true), keys)
    ensures r.None? ==> Overflows(AllRows(contents, |contents|), keys)
    ensures r.Some? ==> TracksAll(r.value, PartRows(contents, indexes, i + 1, true), keys)
    ensures indexes[i].Some? ==> PartRows(contents, indexes, i + 1, false) == PartRows(contents, indexes, i, false)
  {
    if indexes[i].None? {
      return Some(matches);
    }
    assert GoodIndexAt(contents, indexes, i);
    r := MergeIndex(matches, indexes[i].value, keys);
    IndexMerged(matches, indexes, keys, contents, i, r);
  }

  /** One more index has been merged. */
  lemma IndexMerged(matches: seq<Match>, indexes: seq<Option<seq<IndexRow>>>, keys: seq<Key>, contents: seq<seq<RawRow>>,
                    i: nat, merged: Option<seq<Match>>)
    requires i < |indexes| == |contents| && indexes[i].Some? && Indexes(indexes[i].value, contents[i])
    requires TracksAll(matches, PartRows(contents, indexes, i, true), keys)
    requires merged == MergeAll(matches, Found(indexes[i].value, keys))
    ensures merged.None? ==> Overflows(AllRows(contents, |contents|), keys)
    ensures merged.Some? ==> TracksAll(merged.value, PartRows(contents, indexes, i + 1, true), keys)
  {
    FoundTracks(indexes[i].value, contents[i], keys);
    MergeAllTracks(matches, Found(indexes[i].value, keys), keys, PartRows(contents, indexes, i, true), contents[i]);
    if merged.None? {
      OverflowGrows(contents, indexes, i + 1, keys);
    }
  }

  /** The answers to sorted, distinct keys. Answers for the shards without an index arrive as the rows
      of one filtered query over them. */
  method Lookup(indexes: seq<Option<seq<IndexRow>>>, keys: seq<Key>, answers: seq<(Key, Match)>,
                ghost order: seq<nat>, ghost contents: seq<seq<RawRow>>)
    returns (r: Option<seq<Match>>)
    requires GoodIndexes(contents, indexes) && StrictlySorted(keys)
    requires Answered(answers, order, keys, PartRows(contents, indexes, |indexes|, false))
    ensures r.None? <==> Overflows(AllRows(contents, |contents|), keys)
    ensures r.Some? ==> |r.value| == |keys| && forall k :: 0 <= k < |keys| ==>
              Agree(r.value[k], Answer(Selected(AllRows(contents, |contents|), keys[k])))
  {
    if |keys| == 0 {
      return Some([]);
    }
    var matches, all := LookupIndexed(indexes, keys, contents);
    if matches.None? {
      return None;
    }
    ghost var fromIndexes := PartRows(contents, indexes, |indexes|, true);
    ghost var fromQuery := PartRows(contents, indexes, |indexes|, false);
    if all {
      assert fromIndexes + fromQuery == fromIndexes;
      NoOverflow(matches.value, fromIndexes, keys);
      r := matches;
    } else {
      r := MergeAnswers(matches.value, answers, keys, order, fromQuery);
      AnswersTrack(fromQuery, keys);
      MergeAllTracks(matches.value, Answers(fromQuery, keys), keys, fromIndexes, fromQuery);
    }
    AgreesOnAll(contents, indexes, keys, r);
  }
}
