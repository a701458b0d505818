/** Data and metadata files of a dataset: where each finished episode and its metadata row go. */
module CopyFiles {
  import opened CopyRows
  import opened FileSeries

  const MAX_SIZE: nat := 0xFFFF_FFFF_FFFF_FFFF

  datatype MetaRow = MetaRow(episode: int, length: nat, from: nat, to: nat, tasks: seq<nat>, dataFile: FileId, metaFile: FileId)

  /** `dataCount` and `metaCount` tell how many files have been opened. */
  datatype State = State(
    dataOpen: bool, dataFile: FileId, dataStart: nat, dataCount: nat, dataFiles: Files<Episode>,
    metaOpen: bool, metaFile: FileId, metaCount: nat, metaFiles: Files<MetaRow>, buffer: seq<MetaRow>)

  const EMPTY := State(false, FileId(0, 0), 0, 0, map[], false, FileId(0, 0), 0, map[], [])

  datatype Limits = Limits(chunkSize: nat, bufferRows: nat, fileBytes: real)

  // When a file is full ------------------------------------------------------------------------------

  function Ceil(x: real): int {
    -((-x).Floor)
  }

  /** Has an open file of `size` bytes grown to `bytes`? Files are rotated past ceil(bytes) - 1. */
  predicate SizeAtLeast(size: nat, bytes: real) {
    bytes <= 0.0 || (bytes <= MAX_SIZE as real && size > Ceil(bytes) - 1)
  }

  function DataProjection(frames: nat, length: nat): real {
    if frames > 0 then 1.0 + length as real / frames as real else 1.0
  }

  /** The metadata projection divides by the index of the latest finished episode. */
  function MetaProjection(episode: int, length: nat): real {
    var latest := if episode > 0 then episode - 1 else 0;
    if latest > 0 then 1.0 + length as real / latest as real else 1.0
  }

  predicate DataFull(limits: Limits, size: nat, frames: nat, length: nat) {
    SizeAtLeast(size, limits.fileBytes / DataProjection(frames, length))
  }

  predicate MetaFull(limits: Limits, size: nat, episode: int, length: nat) {
    SizeAtLeast(size, limits.fileBytes / MetaProjection(episode, length))
  }

  lemma SizeAtLeastMeans(size: nat, bytes: real)
    requires bytes <= MAX_SIZE as real
    ensures SizeAtLeast(size, bytes) <==> size as real >= bytes
  {
  }

  lemma Quotients(limit: real, size: real, p: real)
    requires p > 0.0
    ensures limit / p <= size <==> limit <= size * p
  {
    var q := limit / p;
    assert q * p == limit;
    if q <= size {
      Monotone(q, size, p);
    } else {
      MonotoneStrict(size, q, p);
    }
  }

  lemma Monotone(a: real, b: real, p: real)
    requires a <= b && p > 0.0
    ensures a * p <= b * p
  {
  }

  lemma MonotoneStrict(a: real, b: real, p: real)
    requires a < b && p > 0.0
    ensures a * p < b * p
  {
  }

  lemma Shrinks(limit: real, p: real)
    requires limit >= 0.0 && p >= 1.0
    ensures limit / p <= limit
  {
    Quotients(limit, limit, p);
    Monotone(1.0, p, 1.0);
    assert limit * p >= limit by {
      if limit > 0.0 {
        Monotone(1.0, p, limit);
        assert p * limit == limit * p;
      }
    }
  }

  /** A data file is left as soon as its size, scaled up by the episode to come, would reach the limit. */
  lemma DataFullMeans(limits: Limits, size: nat, frames: nat, length: nat)
    requires 0.0 < limits.fileBytes <= 0xFFFF_FFFF_FFFF_FFFF as real
    ensures DataProjection(frames, length) >= 1.0
    ensures DataFull(limits, size, frames, length) <==>
            size as real * DataProjection(frames, length) >= limits.fileBytes
  {
    var p := DataProjection(frames, length);
    if frames > 0 {
      assert length as real / frames as real >= 0.0;
    }
    Shrinks(limits.fileBytes, p);
    SizeAtLeastMeans(size, limits.fileBytes / p);
    Quotients(limits.fileBytes, size as real, p);
  }

  lemma ScaledLimit(size: real, limit: real, n: real, length: real, p: real)
    requires n > 0.0 && p == 1.0 + length / n
    ensures size * p >= limit <==> size * (n + length) >= limit * n
  {
    assert p * n == n + length;
    assert size * (n + length) == (size * p) * n;
    Quotients(limit * n, size * p, n);
    assert limit * n / n == limit;
  }

  /** In numbers: with `frames` frames in the file, it is left when size * (frames + length) / frames reaches the limit,
      and when there are none, when its size does. */
  lemma DataFullInNumbers(limits: Limits, size: nat, frames: nat, length: nat)
    requires 0.0 < limits.fileBytes <= 0xFFFF_FFFF_FFFF_FFFF as real
    ensures DataFull(limits, size, frames, length) <==>
            if frames == 0 then size as real >= limits.fileBytes
            else size as real * (frames as real + length as real) >= limits.fileBytes * frames as real
  {
    DataFullMeans(limits, size, frames, length);
    if frames > 0 {
      ScaledLimit(size as real, limits.fileBytes, frames as real, length as real, DataProjection(frames, length));
    }
  }

  /** A metadata file takes the number of the latest episode before in the place of the frames. */
  lemma MetaFullInNumbers(limits: Limits, size: nat, episode: int, length: nat)
    requires 0.0 < limits.fileBytes <= 0xFFFF_FFFF_FFFF_FFFF as real
    ensures MetaFull(limits, size, episode, length) <==>
            if episode <= 1 then size as real >= limits.fileBytes
            else size as real * ((episode - 1) as real + length as real) >= limits.fileBytes * (episode - 1) as real
  {
    DataFullInNumbers(limits, size, if episode > 0 then episode - 1 else 0, length);
  }

  // Storing an episode -------------------------------------------------------------------------------

  /** EnsureDataWriter: go on to the next file if the open one is full, and have a file open. */
  function EnsureData(s: State, limits: Limits, full: bool, totalFrames: nat): State {
    var rotated :=
      if s.dataOpen && full then s.(dataOpen := false, dataFile := Advance(s.dataFile, limits.chunkSize), dataStart := totalFrames)
      else s;
    if rotated.dataOpen then rotated
    else rotated.(dataOpen := true, dataFiles := rotated.dataFiles[rotated.dataFile := []], dataCount := rotated.dataCount + 1)
  }

  function WriteData(s: State, e: Episode): State {
    var before := if s.dataFile in s.dataFiles then s.dataFiles[s.dataFile] else [];
    s.(dataFiles := s.dataFiles[s.dataFile := before + [e]])
  }

  function OpenMeta(s: State): State {
    if s.metaOpen then s
    else s.(metaOpen := true, metaFiles := s.metaFiles[s.metaFile := []], metaCount := s.metaCount + 1)
  }

  function WriteMeta(s: State): State {
    var before := if s.metaFile in s.metaFiles then s.metaFiles[s.metaFile] else [];
    s.(metaFiles := s.metaFiles[s.metaFile := before + s.buffer], buffer := [])
  }

  function FlushMeta(s: State): State {
    if s.buffer == [] then s else WriteMeta(OpenMeta(s))
  }

  function RotateMeta(s: State, limits: Limits, full: bool): State {
    if !s.metaOpen || !full then s
    else
      var flushed := FlushMeta(s);
      flushed.(metaOpen := false, metaFile := Advance(flushed.metaFile, limits.chunkSize))
  }

  function RowOf(e: Episode, dataFile: FileId, metaFile: FileId): MetaRow
    requires e.from <= e.to
  {
    MetaRow(e.index, e.to - e.from, e.from, e.to, e.tasks, dataFile, metaFile)
  }

  function AppendMeta(s: State, limits: Limits, full: bool, e: Episode, dataFile: FileId): State
    requires e.from <= e.to
  {
    var rotated := RotateMeta(s, limits, full);
    var appended := rotated.(buffer := rotated.buffer + [RowOf(e, dataFile, rotated.metaFile)]);
    if |appended.buffer| >= limits.bufferRows then FlushMeta(appended) else appended
  }

  /** Everything FinishEpisode does to the files. */
  function Store(s: State, limits: Limits, e: Episode, dataFull: bool, metaFull: bool): State
    requires e.from <= e.to
  {
    var written := WriteData(EnsureData(s, limits, dataFull, e.from), e);
    AppendMeta(written, limits, metaFull, e, written.dataFile)
  }

  // The invariant ------------------------------------------------------------------------------------

  ghost predicate DataOk(s: State, chunkSize: nat, episodes: seq<Episode>) {
    && Opens(s.dataFiles, chunkSize, s.dataCount)
    && (s.dataOpen ==> s.dataCount > 0 && s.dataFile == Nth(s.dataCount - 1, chunkSize))
    && (!s.dataOpen ==> s.dataFile == Nth(s.dataCount, chunkSize))
    && Concat(s.dataFiles, chunkSize, s.dataCount) == episodes
  }

  ghost predicate MetaOk(s: State, chunkSize: nat, rows: seq<MetaRow>) {
    && Opens(s.metaFiles, chunkSize, s.metaCount)
    && (s.metaOpen ==> s.metaCount > 0 && s.metaFile == Nth(s.metaCount - 1, chunkSize))
    && (!s.metaOpen ==> s.metaFile == Nth(s.metaCount, chunkSize))
    && Concat(s.metaFiles, chunkSize, s.metaCount) + s.buffer == rows
  }

  /** Every metadata row is in, or bound for, the file it names. */
  ghost predicate RowsAtHome(s: State) {
    && (forall id, r :: id in s.metaFiles && r in s.metaFiles[id] ==> r.metaFile == id)
    && (forall r :: r in s.buffer ==> r.metaFile == s.metaFile)
  }

  /** Row k describes episode k, and the data file it names holds that episode. */
  ghost predicate Describes(s: State, r: MetaRow, e: Episode) {
    && e.from <= e.to && r == RowOf(e, r.dataFile, r.metaFile)
    && r.dataFile in s.dataFiles && e in s.dataFiles[r.dataFile]
  }

  ghost predicate RowsDescribe(s: State, rows: seq<MetaRow>, episodes: seq<Episode>) {
    |rows| == |episodes| && forall k :: 0 <= k < |rows| ==> Describes(s, rows[k], episodes[k])
  }

  ghost predicate FilesOk(s: State, chunkSize: nat, episodes: seq<Episode>, rows: seq<MetaRow>) {
    DataOk(s, chunkSize, episodes) && MetaOk(s, chunkSize, rows) && RowsAtHome(s) && RowsDescribe(s, rows, episodes)
  }

  lemma EnsureDataOk(s: State, limits: Limits, full: bool, totalFrames: nat, episodes: seq<Episode>)
    requires DataOk(s, limits.chunkSize, episodes)
    ensures DataOk(EnsureData(s, limits, full, totalFrames), limits.chunkSize, episodes)
    ensures EnsureData(s, limits, full, totalFrames).dataOpen
  {
    OpenNext(s.dataFiles, limits.chunkSize, s.dataCount);
  }

  lemma WriteDataOk(s: State, chunkSize: nat, episodes: seq<Episode>, e: Episode)
    requires DataOk(s, chunkSize, episodes) && s.dataOpen
    ensures DataOk(WriteData(s, e), chunkSize, episodes + [e])
  {
    assert Nth(s.dataCount - 1, chunkSize) in s.dataFiles;
    AppendToLast(s.dataFiles, chunkSize, s.dataCount, [e]);
  }

  /** Data files only grow. */
  lemma StoredStays(s: State, limits: Limits, full: bool, e: Episode, id: FileId, other: Episode, episodes: seq<Episode>)
    requires DataOk(s, limits.chunkSize, episodes) && id in s.dataFiles && other in s.dataFiles[id]
    ensures var r := WriteData(EnsureData(s, limits, full, e.from), e);
            id in r.dataFiles && other in r.dataFiles[id]
  {
    OpenNext(s.dataFiles, limits.chunkSize, s.dataCount);
  }

  lemma OpenMetaOk(s: State, chunkSize: nat, rows: seq<MetaRow>)
    requires MetaOk(s, chunkSize, rows)
    ensures MetaOk(OpenMeta(s), chunkSize, rows) && OpenMeta(s).metaOpen
  {
    OpenNext(s.metaFiles, chunkSize, s.metaCount);
  }

  lemma WriteMetaOk(s: State, chunkSize: nat, rows: seq<MetaRow>)
    requires MetaOk(s, chunkSize, rows) && s.metaOpen
    ensures MetaOk(WriteMeta(s), chunkSize, rows)
  {
    assert Nth(s.metaCount - 1, chunkSize) in s.metaFiles;
    AppendToLast(s.metaFiles, chunkSize, s.metaCount, s.buffer);
    var all := Concat(s.metaFiles, chunkSize, s.metaCount) + s.buffer;
    assert all + [] == all;
  }

  lemma FlushMetaOk(s: State, chunkSize: nat, rows: seq<MetaRow>)
    requires MetaOk(s, chunkSize, rows)
    ensures MetaOk(FlushMeta(s), chunkSize, rows) && FlushMeta(s).buffer == []
    ensures s.metaOpen ==> FlushMeta(s).metaOpen
    ensures FlushMeta(s).metaFile == s.metaFile
  {
    if s.buffer != [] {
      OpenMetaOk(s, chunkSize, rows);
      WriteMetaOk(OpenMeta(s), chunkSize, rows);
    }
  }

  lemma FlushMetaHome(s: State)
    requires RowsAtHome(s) && (!s.metaOpen ==> s.metaFile !in s.metaFiles)
    ensures RowsAtHome(FlushMeta(s))
  {
  }

  lemma NotOpenedYet(s: State, chunkSize: nat, rows: seq<MetaRow>)
    requires MetaOk(s, chunkSize, rows) && !s.metaOpen
    ensures s.metaFile !in s.metaFiles
  {
  }

  lemma FlushOk(s: State, chunkSize: nat, rows: seq<MetaRow>)
    requires MetaOk(s, chunkSize, rows) && RowsAtHome(s)
    ensures MetaOk(FlushMeta(s), chunkSize, rows) && RowsAtHome(FlushMeta(s)) && FlushMeta(s).dataFiles == s.dataFiles
    ensures FlushMeta(s).buffer == [] && FlushMeta(s).metaFile == s.metaFile && (s.metaOpen ==> FlushMeta(s).metaOpen)
  {
    if !s.metaOpen {
      NotOpenedYet(s, chunkSize, rows);
    }
    FlushMetaOk(s, chunkSize, rows);
    FlushMetaHome(s);
  }

  lemma RotateMetaOk(s: State, limits: Limits, full: bool, rows: seq<MetaRow>)
    requires MetaOk(s, limits.chunkSize, rows) && RowsAtHome(s)
    ensures MetaOk(RotateMeta(s, limits, full), limits.chunkSize, rows) && RowsAtHome(RotateMeta(s, limits, full))
  {
    if s.metaOpen && full {
      FlushOk(s, limits.chunkSize, rows);
    }
  }

  lemma AppendRowOk(s: State, chunkSize: nat, rows: seq<MetaRow>, r: MetaRow)
    requires MetaOk(s, chunkSize, rows) && RowsAtHome(s) && r.metaFile == s.metaFile
    ensures var t := s.(buffer := s.buffer + [r]);
            MetaOk(t, chunkSize, rows + [r]) && RowsAtHome(t)
  {
    assert Concat(s.metaFiles, chunkSize, s.metaCount) + (s.buffer + [r])
        == Concat(s.metaFiles, chunkSize, s.metaCount) + s.buffer + [r];
  }

  lemma AppendMetaOk(s: State, limits: Limits, full: bool, e: Episode, dataFile: FileId, rows: seq<MetaRow>)
    requires MetaOk(s, limits.chunkSize, rows) && RowsAtHome(s) && e.from <= e.to
    ensures var t, row := AppendMeta(s, limits, full, e, dataFile), RowOf(e, dataFile, RotateMeta(s, limits, full).metaFile);
            MetaOk(t, limits.chunkSize, rows + [row]) && RowsAtHome(t) && t.dataFiles == s.dataFiles
  {
    var rotated := RotateMeta(s, limits, full);
    var row := RowOf(e, dataFile, rotated.metaFile);
    var appended := rotated.(buffer := rotated.buffer + [row]);
    RotateMetaOk(s, limits, full, rows);
    AppendRowOk(rotated, limits.chunkSize, rows, row);
    FlushOk(appended, limits.chunkSize, rows + [row]);
  }

  lemma WrittenDescribes(s: State, limits: Limits, full: bool, e: Episode, episodes: seq<Episode>, rows: seq<MetaRow>)
    requires DataOk(s, limits.chunkSize, episodes) && RowsDescribe(s, rows, episodes)
    ensures RowsDescribe(WriteData(EnsureData(s, limits, full, e.from), e), rows, episodes)
  {
    var t := WriteData(EnsureData(s, limits, full, e.from), e);
    forall k | 0 <= k < |rows| ensures Describes(t, rows[k], episodes[k]) {
      assert Describes(s, rows[k], episodes[k]);
      StoredStays(s, limits, full, e, rows[k].dataFile, episodes[k], episodes);
    }
  }

  /** The metadata row of the next episode. */
  function NextRow(s: State, limits: Limits, e: Episode, dataFull: bool, metaFull: bool): MetaRow
    requires e.from <= e.to
  {
    var written := WriteData(EnsureData(s, limits, dataFull, e.from), e);
    RowOf(e, written.dataFile, RotateMeta(written, limits, metaFull).metaFile)
  }

  lemma DescribesOneMore(s: State, t: State, rows: seq<MetaRow>, episodes: seq<Episode>, r: MetaRow, e: Episode)
    requires RowsDescribe(s, rows, episodes) && Describes(s, r, e) && t.dataFiles == s.dataFiles
    ensures RowsDescribe(t, rows + [r], episodes + [e])
  {
    forall k | 0 <= k < |rows + [r]| ensures Describes(t, (rows + [r])[k], (episodes + [e])[k]) {
      if k < |rows| {
        assert Describes(s, rows[k], episodes[k]);
      }
    }
  }

  lemma WritingDataIsApart(s: State, limits: Limits, full: bool, e: Episode, rows: seq<MetaRow>)
    requires MetaOk(s, limits.chunkSize, rows) && RowsAtHome(s)
    ensures var written := WriteData(EnsureData(s, limits, full, e.from), e);
            MetaOk(written, limits.chunkSize, rows) && RowsAtHome(written)
  {
  }

  lemma WritingDataOk(s: State, limits: Limits, full: bool, e: Episode, episodes: seq<Episode>, rows: seq<MetaRow>)
    requires FilesOk(s, limits.chunkSize, episodes, rows) && e.from <= e.to
    ensures var written := WriteData(EnsureData(s, limits, full, e.from), e);
            && DataOk(written, limits.chunkSize, episodes + [e]) && RowsDescribe(written, rows, episodes)
            && MetaOk(written, limits.chunkSize, rows) && RowsAtHome(written)
            && written.dataFile in written.dataFiles && e in written.dataFiles[written.dataFile]
  {
    EnsureDataOk(s, limits, full, e.from, episodes);
    WriteDataOk(EnsureData(s, limits, full, e.from), limits.chunkSize, episodes, e);
    WrittenDescribes(s, limits, full, e, episodes, rows);
    WritingDataIsApart(s, limits, full, e, rows);
  }

  /** Storing an episode keeps every earlier row and file in place, and puts both the data and the row
      of this episode where the row says they are. */
  lemma StoreOk(s: State, limits: Limits, e: Episode, dataFull: bool, metaFull: bool, episodes: seq<Episode>, rows: seq<MetaRow>)
    requires FilesOk(s, limits.chunkSize, episodes, rows) && e.from <= e.to
    ensures FilesOk(Store(s, limits, e, dataFull, metaFull), limits.chunkSize, episodes + [e],
                    rows + [NextRow(s, limits, e, dataFull, metaFull)])
  {
    var written := WriteData(EnsureData(s, limits, dataFull, e.from), e);
    WritingDataOk(s, limits, dataFull, e, episodes, rows);
    StoreRowOk(written, limits, e, metaFull, episodes, rows);
  }

  lemma StoreRowOk(s: State, limits: Limits, e: Episode, full: bool, episodes: seq<Episode>, rows: seq<MetaRow>)
    requires DataOk(s, limits.chunkSize, episodes + [e]) && RowsDescribe(s, rows, episodes) && e.from <= e.to
    requires MetaOk(s, limits.chunkSize, rows) && RowsAtHome(s)
    requires s.dataFile in s.dataFiles && e in s.dataFiles[s.dataFile]
    ensures FilesOk(AppendMeta(s, limits, full, e, s.dataFile), limits.chunkSize, episodes + [e],
                    rows + [RowOf(e, s.dataFile, RotateMeta(s, limits, full).metaFile)])
  {
    var t, row := AppendMeta(s, limits, full, e, s.dataFile), RowOf(e, s.dataFile, RotateMeta(s, limits, full).metaFile);
    AppendMetaOk(s, limits, full, e, s.dataFile, rows);
    DescribesOneMore(s, t, rows, episodes, row, e);
    AppendingIsApart(s, limits, full, e, s.dataFile, episodes + [e]);
  }

  lemma AppendingIsApart(s: State, limits: Limits, full: bool, e: Episode, dataFile: FileId, episodes: seq<Episode>)
    requires DataOk(s, limits.chunkSize, episodes) && e.from <= e.to
    ensures DataOk(AppendMeta(s, limits, full, e, dataFile), limits.chunkSize, episodes)
  {
  }

  lemma OpenFilesExist(s: State, chunkSize: nat, episodes: seq<Episode>, rows: seq<MetaRow>)
    requires FilesOk(s, chunkSize, episodes, rows)
    ensures s.dataOpen ==> s.dataFile in s.dataFiles
    ensures s.metaOpen ==> s.metaFile in s.metaFiles
  {
  }

  lemma EmptyIsOk(chunkSize: nat)
    ensures FilesOk(EMPTY, chunkSize, [], [])
  {
  }

  lemma {:induction false} RowIsInSomeFile(files: Files<MetaRow>, chunkSize: nat, n: nat, r: MetaRow)
    requires r in Concat(files, chunkSize, n)
    ensures exists id :: id in files && r in files[id]
  {
    var id := Nth(n - 1, chunkSize);
    if id !in files || r !in files[id] {
      RowIsInSomeFile(files, chunkSize, n - 1, r);
    }
  }

  /** Once the buffer has been flushed, the metadata files hold one row per episode, in order; row k is in the file it
      names, has the episode's number, range, length and tasks, and names the data file that holds the episode. */
  lemma EverythingIsWhereItsRowSays(s: State, chunkSize: nat, episodes: seq<Episode>, rows: seq<MetaRow>)
    requires FilesOk(s, chunkSize, episodes, rows) && s.buffer == []
    ensures Concat(s.dataFiles, chunkSize, s.dataCount) == episodes
    ensures Concat(s.metaFiles, chunkSize, s.metaCount) == rows && |rows| == |episodes|
    ensures forall k: nat :: k < |rows| ==> IsRowOf(s, rows[k], episodes[k])
  {
    forall k: nat | k < |rows| ensures IsRowOf(s, rows[k], episodes[k]) {
      assert Describes(s, rows[k], episodes[k]);
      RowIsInSomeFile(s.metaFiles, chunkSize, s.metaCount, rows[k]);
    }
  }

  /** The row says of the episode what it must, and is where it says. */
  ghost predicate IsRowOf(s: State, row: MetaRow, e: Episode) {
    && row.episode == e.index && row.from == e.from && row.to == e.to && row.length == e.to - e.from && row.tasks == e.tasks
    && row.dataFile in s.dataFiles && e in s.dataFiles[row.dataFile]
    && row.metaFile in s.metaFiles && row in s.metaFiles[row.metaFile]
  }

  /** First frame of the open data file: that of its first episode, and 0 in the very first file. */
  function FirstFrame(s: State): nat {
    if s.dataFile in s.dataFiles && s.dataFiles[s.dataFile] != [] && s.dataFile != FileId(0, 0)
    then s.dataFiles[s.dataFile][0].from
    else 0
  }

  ghost predicate StartIsKnown(s: State) {
    && (s.dataOpen ==> s.dataFile in s.dataFiles && s.dataFiles[s.dataFile] != [])
    && (if s.dataOpen then s.dataStart == FirstFrame(s) else s.dataFile == FileId(0, 0) && s.dataStart == 0)
  }

  /** Where the files of an episode are: the data file is left when the frames in it, counted from its first episode, make it
      full, and the metadata file when the number of the episode does. */
  ghost predicate FilesFollow(s: State, r: State, limits: Limits, e: Episode, dataSize: nat, metaSize: nat) {
    && FirstFrame(s) <= e.from <= e.to
    && r.dataFile == (if s.dataOpen && DataFull(limits, dataSize, e.from - FirstFrame(s), e.to - e.from)
                      then Advance(s.dataFile, limits.chunkSize) else s.dataFile)
    && r.metaFile == (if s.metaOpen && MetaFull(limits, metaSize, e.index, e.to - e.from)
                      then Advance(s.metaFile, limits.chunkSize) else s.metaFile)
  }

  lemma StoreFollows(s: State, limits: Limits, e: Episode, dataSize: nat, metaSize: nat, dataFull: bool, metaFull: bool)
    requires StartIsKnown(s) && s.dataStart <= e.from <= e.to && limits.chunkSize > 0
    requires dataFull == DataFull(limits, dataSize, e.from - s.dataStart, e.to - e.from)
    requires metaFull == MetaFull(limits, metaSize, e.index, e.to - e.from)
    ensures var r := Store(s, limits, e, dataFull, metaFull);
            StartIsKnown(r) && FilesFollow(s, r, limits, e, dataSize, metaSize)
  {
    assert StartIsKnown(WriteData(EnsureData(s, limits, dataFull, e.from), e));
  }

  /** No more rows wait in the buffer than it may have. */
  lemma BufferStaysSmall(s: State, limits: Limits, full: bool, e: Episode, dataFile: FileId)
    requires e.from <= e.to
    ensures |AppendMeta(s, limits, full, e, dataFile).buffer| < if limits.bufferRows == 0 then 1 else limits.bufferRows
  {
  }

  /** Flushing moves rows from the buffer to their file and changes nothing else. */
  lemma FlushMetaKeepsAll(s: State, chunkSize: nat, episodes: seq<Episode>, rows: seq<MetaRow>)
    requires FilesOk(s, chunkSize, episodes, rows)
    ensures FilesOk(FlushMeta(s), chunkSize, episodes, rows)
  {
    if !s.metaOpen {
      NotOpenedYet(s, chunkSize, rows);
    }
    FlushMetaOk(s, chunkSize, rows);
    FlushMetaHome(s);
    forall k | 0 <= k < |rows| ensures Describes(FlushMeta(s), rows[k], episodes[k]) {
      assert Describes(s, rows[k], episodes[k]);
    }
  }
}
