/** Numbered output files: chunks of a fixed number of files, opened one after the other. */
module FileSeries {
  datatype FileId = FileId(chunk: nat, file: nat)

  function Advance(id: FileId, chunkSize: nat): FileId {
    if id.file == chunkSize - 1 then FileId(id.chunk + 1, 0) else FileId(id.chunk, id.file + 1)
  }

  /** The number of the next file. */
  method AdvanceFileIndex(id: FileId, chunkSize: nat) returns (next: FileId)
    ensures next == Advance(id, chunkSize)
  {
    var chunk, file := id.chunk, id.file;
    if file == chunkSize - 1 {
      file := 0;
      chunk := chunk + 1;
    } else {
      file := file + 1;
    }
    next := FileId(chunk, file);
  }

  /** Id of the n-th file. */
  function Nth(n: nat, chunkSize: nat): FileId {
    if n == 0 then FileId(0, 0) else Advance(Nth(n - 1, chunkSize), chunkSize)
  }

  predicate Less(a: FileId, b: FileId) {
    a.chunk < b.chunk || (a.chunk == b.chunk && a.file < b.file)
  }

  /** Files are numbered in strictly increasing order, so no number is used twice. */
  lemma {:induction false} NthIncreases(i: nat, j: nat, chunkSize: nat)
    requires i < j
    ensures Less(Nth(i, chunkSize), Nth(j, chunkSize))
  {
    if i < j - 1 {
      NthIncreases(i, j - 1, chunkSize);
    }
  }

  lemma NthIsInjective(i: nat, j: nat, chunkSize: nat)
    requires Nth(i, chunkSize) == Nth(j, chunkSize)
    ensures i == j
  {
    if i < j {
      NthIncreases(i, j, chunkSize);
    } else if j < i {
      NthIncreases(j, i, chunkSize);
    }
  }

  /** Every chunk but the last is full. */
  lemma {:induction false} NthFillsChunks(n: nat, chunkSize: nat)
    requires chunkSize > 0
    ensures Nth(n, chunkSize).file < chunkSize
    ensures Nth(n, chunkSize).chunk * chunkSize + Nth(n, chunkSize).file == n
  {
    if n > 0 {
      NthFillsChunks(n - 1, chunkSize);
      var id := Nth(n - 1, chunkSize);
      assert (id.chunk + 1) * chunkSize == id.chunk * chunkSize + chunkSize;
    }
  }

  type Files<T> = map<FileId, seq<T>>

  ghost predicate IsAmongFirst(id: FileId, chunkSize: nat, n: nat) {
    exists i: nat :: i < n && id == Nth(i, chunkSize)
  }

  /** The first n files are there, and no others. */
  ghost predicate Opens<T>(files: Files<T>, chunkSize: nat, n: nat) {
    && (forall i: nat :: Nth(i, chunkSize) in files <==> i < n)
    && (forall id :: id in files ==> IsAmongFirst(id, chunkSize, n))
  }

  /** Contents of the first n files, one after the other. */
  ghost function Concat<T>(files: Files<T>, chunkSize: nat, n: nat): seq<T> {
    if n == 0 then []
    else
      var id := Nth(n - 1, chunkSize);
      Concat(files, chunkSize, n - 1) + if id in files then files[id] else []
  }

  lemma {:induction false} ConcatSame<T>(a: Files<T>, b: Files<T>, chunkSize: nat, n: nat)
    requires forall i: nat :: i < n ==> SameFile(a, b, Nth(i, chunkSize))
    ensures Concat(a, chunkSize, n) == Concat(b, chunkSize, n)
  {
    if n > 0 {
      ConcatSame(a, b, chunkSize, n - 1);
      assert SameFile(a, b, Nth(n - 1, chunkSize));
    }
  }

  ghost predicate SameFile<T>(a: Files<T>, b: Files<T>, id: FileId) {
    if id in a then id in b && a[id] == b[id] else id !in b
  }

  /** A new file replaces nothing. */
  lemma OpenNext<T>(files: Files<T>, chunkSize: nat, n: nat)
    requires Opens(files, chunkSize, n)
    ensures Nth(n, chunkSize) !in files
    ensures var grown := files[Nth(n, chunkSize) := []];
            Opens(grown, chunkSize, n + 1) && Concat(grown, chunkSize, n + 1) == Concat(files, chunkSize, n)
  {
    var id := Nth(n, chunkSize);
    var grown := files[id := []];
    forall i: nat ensures Nth(i, chunkSize) in grown <==> i < n + 1 {
      if Nth(i, chunkSize) == id {
        NthIsInjective(i, n, chunkSize);
      }
    }
    forall other | other in grown ensures IsAmongFirst(other, chunkSize, n + 1) {
      assert other != id ==> IsAmongFirst(other, chunkSize, n);
    }
    forall i: nat | i < n ensures SameFile(files, grown, Nth(i, chunkSize)) {
      NthIncreases(i, n, chunkSize);
    }
    ConcatSame(files, grown, chunkSize, n);
  }

  /** What is appended to the last file comes after all there is. */
  lemma AppendToLast<T>(files: Files<T>, chunkSize: nat, n: nat, more: seq<T>)
    requires n > 0 && Opens(files, chunkSize, n) && Nth(n - 1, chunkSize) in files
    ensures var id := Nth(n - 1, chunkSize);
            var appended := files[id := files[id] + more];
            && Opens(appended, chunkSize, n)
            && Concat(appended, chunkSize, n) == Concat(files, chunkSize, n) + more
  {
    var id := Nth(n - 1, chunkSize);
    var appended := files[id := files[id] + more];
    forall i: nat | i < n - 1 ensures SameFile(files, appended, Nth(i, chunkSize)) {
      NthIncreases(i, n - 1, chunkSize);
    }
    ConcatSame(files, appended, chunkSize, n - 1);
  }
}
