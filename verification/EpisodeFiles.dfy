/** The data and metadata writers of COPY, changed in place as episodes are finished. The files' contents
    stand for the file system; `size` parameters are what probing the open file answers. */
module EpisodeFiles {
  import opened CopyRows
  import opened FileSeries
  import Q = CopyFiles

  class FileWriters {
    const limits: Q.Limits
    var dataOpen: bool
    var dataFile: FileId
    var dataStart: nat
    ghost var dataCount: nat
    var dataFiles: FileSeries.Files<Episode>
    var metaOpen: bool
    var metaFile: FileId
    ghost var metaCount: nat
    var metaFiles: FileSeries.Files<Q.MetaRow>
    var buffer: seq<Q.MetaRow>
    ghost var episodes: seq<Episode>
    ghost var rows: seq<Q.MetaRow>

    /** FilesOk as a function value, which proofs about callers need not look into. */
    ghost const filesOk: (Q.State, seq<Episode>, seq<Q.MetaRow>) -> bool

    ghost predicate FilesOkAt(s: Q.State, e: seq<Episode>, r: seq<Q.MetaRow>) {
      filesOk(s, e, r) == Q.FilesOk(s, limits.chunkSize, e, r)
    }

    /** All files are as they should be after the episodes stored so far. */
    ghost predicate Valid()
      reads this
    {
      && limits.chunkSize > 0 && (forall s, e, r :: FilesOkAt(s, e, r))
      && filesOk(State(), episodes, rows) && Q.StartIsKnown(State())
    }

    lemma ValidMeans()
      requires Valid()
      ensures Q.FilesOk(State(), limits.chunkSize, episodes, rows)
    {
      assert FilesOkAt(State(), episodes, rows);
    }

    ghost function State(): Q.State
      reads this
    {
      Q.State(dataOpen, dataFile, dataStart, dataCount, dataFiles, metaOpen, metaFile, metaCount, metaFiles, buffer)
    }

    constructor (limits: Q.Limits)
      requires limits.chunkSize > 0
      ensures Valid() && State() == Q.EMPTY && this.limits == limits && episodes == []
    {
      this.limits := limits;
      dataOpen, dataFile, dataStart, dataCount, dataFiles := false, FileId(0, 0), 0, 0, map[];
      metaOpen, metaFile, metaCount, metaFiles, buffer := false, FileId(0, 0), 0, map[], [];
      episodes, rows := [], [];
      filesOk := (s, e, r) => Q.FilesOk(s, limits.chunkSize, e, r);
      Q.EmptyIsOk(limits.chunkSize);
    }

    method EnsureDataWriter(length: nat, totalFrames: nat, size: nat)
      requires dataStart <= totalFrames && limits.chunkSize > 0 && (dataOpen ==> dataFile in dataFiles)
      modifies this`dataOpen, this`dataFile, this`dataStart, this`dataCount, this`dataFiles
      ensures State() == Q.EnsureData(old(State()), limits, Q.DataFull(limits, size, totalFrames - old(dataStart), length), totalFrames)
      ensures dataStart <= totalFrames && dataFile in dataFiles
    {
      if dataOpen && Q.DataFull(limits, size, totalFrames - dataStart, length) {
        dataOpen := false;
        dataFile := AdvanceFileIndex(dataFile, limits.chunkSize);
        dataStart := totalFrames;
      }
      if !dataOpen {
        dataFiles := dataFiles[dataFile := []];
        dataCount := dataCount + 1;
        dataOpen := true;
      }
    }

    method WriteData(e: Episode)
      requires dataFile in dataFiles
      modifies this`dataFiles
      ensures State() == Q.WriteData(old(State()), e)
    {
      dataFiles := dataFiles[dataFile := dataFiles[dataFile] + [e]];
    }

    method FlushMetadataBuffer()
      requires metaOpen ==> metaFile in metaFiles
      modifies this`metaOpen, this`metaCount, this`metaFiles, this`buffer
      ensures State() == Q.FlushMeta(old(State()))
    {
      if |buffer| == 0 {
        return;
      }
      if !metaOpen {
        metaFiles := metaFiles[metaFile := []];
        metaCount := metaCount + 1;
        metaOpen := true;
      }
      metaFiles := metaFiles[metaFile := metaFiles[metaFile] + buffer];
      buffer := [];
    }

    method MaybeRotateEpisodesWriter(episode: int, length: nat, size: nat)
      requires (metaOpen ==> metaFile in metaFiles) && limits.chunkSize > 0
      modifies this`metaOpen, this`metaFile, this`metaCount, this`metaFiles, this`buffer
      ensures State() == Q.RotateMeta(old(State()), limits, Q.MetaFull(limits, size, episode, length))
      ensures metaOpen ==> metaFile in metaFiles
    {
      if !metaOpen || !Q.MetaFull(limits, size, episode, length) {
        return;
      }
      FlushMetadataBuffer();
      metaOpen := false;
      metaFile := AdvanceFileIndex(metaFile, limits.chunkSize);
    }

    method AppendEpisodeMetadata(e: Episode, file: FileId, size: nat)
      requires (metaOpen ==> metaFile in metaFiles) && limits.chunkSize > 0 && e.from <= e.to
      modifies this`metaOpen, this`metaFile, this`metaCount, this`metaFiles, this`buffer
      ensures State() == Q.AppendMeta(old(State()), limits, Q.MetaFull(limits, size, e.index, e.to - e.from), e, file)
    {
      MaybeRotateEpisodesWriter(e.index, e.to - e.from, size);
      buffer := buffer + [Q.MetaRow(e.index, e.to - e.from, e.from, e.to, e.tasks, file, metaFile)];
      if |buffer| >= limits.bufferRows {
        FlushMetadataBuffer();
      }
    }

    /** The part of FinishEpisode that writes files. */
    method StoreEpisode(e: Episode, dataSize: nat, metaSize: nat)
      requires Valid() && dataStart <= e.from <= e.to
      modifies this
      ensures Valid() && episodes == old(episodes) + [e] && dataStart <= e.from
      ensures Q.FilesFollow(old(State()), State(), limits, e, dataSize, metaSize)
    {
      ghost var before := State();
      ghost var next, row := StoreKeepsFiles(before, e, dataSize, metaSize);
      Store(e, dataSize, metaSize, before, next);
      episodes := episodes + [e];
      rows := rows + [row];
      assert State() == next;
    }

    lemma StoreKeepsFiles(before: Q.State, e: Episode, dataSize: nat, metaSize: nat) returns (next: Q.State, row: Q.MetaRow)
      requires Valid() && before == State() && dataStart <= e.from <= e.to
      ensures dataOpen ==> dataFile in dataFiles
      ensures metaOpen ==> metaFile in metaFiles
      ensures next == Q.Store(before, limits, e, Q.DataFull(limits, dataSize, e.from - dataStart, e.to - e.from),
                              Q.MetaFull(limits, metaSize, e.index, e.to - e.from))
      ensures filesOk(next, episodes + [e], rows + [row])
      ensures Q.StartIsKnown(next) && Q.FilesFollow(before, next, limits, e, dataSize, metaSize)
    {
      var dataFull := Q.DataFull(limits, dataSize, e.from - dataStart, e.to - e.from);
      var metaFull := Q.MetaFull(limits, metaSize, e.index, e.to - e.from);
      next, row := StoredRows(before, e, dataFull, metaFull);
      Q.StoreFollows(before, limits, e, dataSize, metaSize, dataFull, metaFull);
    }

    lemma StoredRows(before: Q.State, e: Episode, dataFull: bool, metaFull: bool) returns (next: Q.State, row: Q.MetaRow)
      requires Valid() && before == State() && e.from <= e.to
      ensures dataOpen ==> dataFile in dataFiles
      ensures metaOpen ==> metaFile in metaFiles
      ensures next == Q.Store(before, limits, e, dataFull, metaFull) && filesOk(next, episodes + [e], rows + [row])
    {
      ValidMeans();
      Q.OpenFilesExist(before, limits.chunkSize, episodes, rows);
      Q.StoreOk(before, limits, e, dataFull, metaFull, episodes, rows);
      next, row := Q.Store(before, limits, e, dataFull, metaFull), Q.NextRow(before, limits, e, dataFull, metaFull);
      assert FilesOkAt(next, episodes + [e], rows + [row]);
    }

    /** The part of Finalize that writes metadata. */
    method Finish()
      requires Valid()
      modifies this`metaOpen, this`metaCount, this`metaFiles, this`buffer
      ensures Valid() && buffer == []
    {
      ValidMeans();
      Q.OpenFilesExist(State(), limits.chunkSize, episodes, rows);
      Q.FlushMetaKeepsAll(State(), limits.chunkSize, episodes, rows);
      Q.FlushMetaOk(State(), limits.chunkSize, rows);
      FlushMetadataBuffer();
      assert FilesOkAt(State(), episodes, rows);
    }

    method Store(e: Episode, dataSize: nat, metaSize: nat, ghost before: Q.State, ghost next: Q.State)
      requires before == State()
      requires (dataOpen ==> dataFile in dataFiles) && (metaOpen ==> metaFile in metaFiles) && limits.chunkSize > 0
      requires dataStart <= e.from <= e.to
      requires next == Q.Store(before, limits, e, Q.DataFull(limits, dataSize, e.from - dataStart, e.to - e.from),
                               Q.MetaFull(limits, metaSize, e.index, e.to - e.from))
      modifies this`dataOpen, this`dataFile, this`dataStart, this`dataCount, this`dataFiles,
               this`metaOpen, this`metaFile, this`metaCount, this`metaFiles, this`buffer
      ensures dataStart <= e.from && State() == next
    {
      EnsureDataWriter(e.to - e.from, e.from, dataSize);
      var episodeFile := dataFile;
      WriteData(e);
      AppendEpisodeMetadata(e, episodeFile, metaSize);
    }
  }
}
