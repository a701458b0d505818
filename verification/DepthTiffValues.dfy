/** What the decoder reads, in numbers: when a file is a depth image, and which bytes of it stand for
    which pixel. */
module DepthTiffValues {
  import opened Collections
  import opened DepthTiff

  /** Two or four bytes as a number in the file's byte order. */
  function InOrder(data: seq<byte>, at: nat, size: nat, little: bool): nat
    requires (size == 2 || size == 4) && at + size <= |data|
  {
    if size == 2 then
      if little then data[at] as nat + 256 * data[at + 1] as nat
      else 256 * data[at] as nat + data[at + 1] as nat
    else if little then data[at] as nat + 256 * data[at + 1] as nat + 65536 * data[at + 2] as nat + 16777216 * data[at + 3] as nat
    else 16777216 * data[at] as nat + 65536 * data[at + 1] as nat + 256 * data[at + 2] as nat + data[at + 3] as nat
  }

  lemma NumberInOrder(data: seq<byte>, at: nat, size: nat, little: bool)
    requires (size == 2 || size == 4) && at + size <= |data|
    ensures Number(data, at, size, little) == InOrder(data, at, size, little)
  {
    if size == 2 {
      TwoBytes(data, at, little);
    } else if little {
      TwoBytes(data, at + 2, little);
      assert Number(data, at, 3 + 1, little) == data[at] as nat + 256 * Number(data, at + 1, 3, little);
      assert Number(data, at + 1, 2 + 1, little) == data[at + 1] as nat + 256 * Number(data, at + 2, 2, little);
    } else {
      TwoBytes(data, at, little);
      assert Number(data, at, 3 + 1, little) == data[at + 3] as nat + 256 * Number(data, at, 3, little);
      assert Number(data, at, 2 + 1, little) == data[at + 2] as nat + 256 * Number(data, at, 2, little);
    }
  }

  lemma TwoBytes(data: seq<byte>, at: nat, little: bool)
    requires at + 2 <= |data|
    ensures Number(data, at, 2, little) == InOrder(data, at, 2, little)
  {
    if little {
      assert Number(data, at + 1, 1, little) == data[at + 1] as nat + 256 * Number(data, at + 2, 0, little);
    } else {
      assert Number(data, at, 1, little) == data[at] as nat + 256 * Number(data, at, 0, little);
    }
  }

  // Entries --------------------------------------------------------------------------------------------

  ghost predicate ElementIs(data: seq<byte>, at: nat, size: nat, j: nat, value: nat, little: bool) {
    (size == 2 || size == 4) && at + size * j + size <= |data| && value == InOrder(data, at + size * j, size, little)
  }

  /** Most values that an entry may have. */
  function MostValues(tag: nat, size: nat): nat {
    match tag
    case 273 | 279 => size / 4
    case 258 | 338 | 339 => 4
    case _ => 1
  }

  /** The values stand at `at`, as numbers of `size` bytes each. */
  ghost predicate ValuesAt(data: seq<byte>, at: nat, size: nat, values: seq<nat>, little: bool) {
    && (size == 2 || size == 4) && at + size * |values| <= |data|
    && forall j: nat :: j < |values| ==> ElementIs(data, at, size, j, values[j], little)
  }

  /** What an entry with these numbers holds: the values in its last four bytes if they fit there, elsewhere otherwise. */
  ghost predicate Holds(data: seq<byte>, tag: nat, kind: nat, count: nat, inline: nat, pointer: nat, values: seq<nat>, little: bool) {
    && (kind == 3 || kind == 4) && 0 < |values| == count <= MostValues(tag, |data|)
    && var size := if kind == 3 then 2 else 4;
       ValuesAt(data, if size * count <= 4 then inline else pointer, size, values, little)
  }

  /** The entry of 12 bytes holds these values. */
  ghost predicate EntryHolds(data: seq<byte>, entry: nat, values: seq<nat>, little: bool) {
    && entry + 12 <= |data|
    && Holds(data, InOrder(data, entry, 2, little), InOrder(data, entry + 2, 2, little), InOrder(data, entry + 4, 4, little),
             entry + 8, InOrder(data, entry + 8, 4, little), values, little)
  }

  lemma {:induction false} ValuesMean(data: seq<byte>, at: nat, n: nat, size: nat, little: bool)
    requires (size == 2 || size == 4) && at + n * size <= |data|
    ensures ValuesAt(data, at, size, Values(data, at, n, size, little), little)
  {
    if n > 0 {
      var place := at + (n - 1) * size;
      assert place == at + size * (n - 1) && place + size == at + n * size;
      ValuesMean(data, at, n - 1, size, little);
      var before, value := Values(data, at, n - 1, size, little), Number(data, place, size, little);
      NumberInOrder(data, place, size, little);
      OneMoreValue(data, at, size, before, value, little);
      assert Values(data, at, n, size, little) == before + [value];
    }
  }

  lemma OneMoreValue(data: seq<byte>, at: nat, size: nat, values: seq<nat>, value: nat, little: bool)
    requires ValuesAt(data, at, size, values, little) && ElementIs(data, at, size, |values|, value, little)
    ensures ValuesAt(data, at, size, values + [value], little)
  {
    var all := values + [value];
    forall j: nat | j < |all| ensures ElementIs(data, at, size, j, all[j], little) {
      if j < |values| {
        assert ElementIs(data, at, size, j, values[j], little);
      }
    }
  }

  lemma ValuesAreUnique(data: seq<byte>, at: nat, size: nat, a: seq<nat>, b: seq<nat>, little: bool)
    requires ValuesAt(data, at, size, a, little) && ValuesAt(data, at, size, b, little) && |a| == |b|
    ensures a == b
  {
    forall j: nat | j < |a| ensures a[j] == b[j] {
      assert ElementIs(data, at, size, j, a[j], little) && ElementIs(data, at, size, j, b[j], little);
    }
  }

  lemma EntryNumbers(data: seq<byte>, entry: nat, little: bool)
    requires entry + 12 <= |data|
    ensures Number(data, entry, 2, little) == InOrder(data, entry, 2, little)
    ensures Number(data, entry + 2, 2, little) == InOrder(data, entry + 2, 2, little)
    ensures Number(data, entry + 4, 4, little) == InOrder(data, entry + 4, 4, little)
    ensures Number(data, entry + 8, 4, little) == InOrder(data, entry + 8, 4, little)
  {
    NumberInOrder(data, entry, 2, little);
    NumberInOrder(data, entry + 2, 2, little);
    NumberInOrder(data, entry + 4, 4, little);
    NumberInOrder(data, entry + 8, 4, little);
  }

  lemma ValuesAre(data: seq<byte>, at: nat, n: nat, size: nat, little: bool, values: seq<nat>)
    requires (size == 2 || size == 4) && at + n * size <= |data|
    ensures Values(data, at, n, size, little) == values <==> |values| == n && ValuesAt(data, at, size, values, little)
  {
    ValuesMean(data, at, n, size, little);
    if |values| == n && ValuesAt(data, at, size, values, little) {
      ValuesAreUnique(data, at, size, Values(data, at, n, size, little), values, little);
    }
  }

  lemma ValuesOfMean(data: seq<byte>, tag: nat, kind: nat, count: nat, inline: nat, pointer: nat, values: seq<nat>, little: bool)
    ensures ValuesOf(data, tag, kind, count, inline, pointer, little) == Some(values)
            <==> Holds(data, tag, kind, count, inline, pointer, values, little)
  {
    var size := ElementSize(kind);
    if size != 0 {
      var at := if size * count <= 4 then inline else pointer;
      if at + count * size <= |data| {
        ValuesAre(data, at, count, size, little, values);
      }
    }
  }

  /** An entry is read as the values that it holds, and refused if it holds none. */
  lemma EntryMeans(data: seq<byte>, entry: nat, little: bool, values: seq<nat>)
    requires entry + 12 <= |data|
    ensures EntryValues(data, entry, little) == Some(values) <==> EntryHolds(data, entry, values, little)
  {
    EntryNumbers(data, entry, little);
    var tag, kind, count, pointer := Number(data, entry, 2, little), Number(data, entry + 2, 2, little),
                                     Number(data, entry + 4, 4, little), Number(data, entry + 8, 4, little);
    ValuesOfMean(data, tag, kind, count, entry + 8, pointer, values, little);
  }

  // Directory ------------------------------------------------------------------------------------------

  /** The tag of entry i. */
  ghost function TagAt(data: seq<byte>, directory: nat, i: nat, little: bool): nat {
    if directory + 2 + 12 * i + 12 <= |data| then InOrder(data, directory + 2 + 12 * i, 2, little) else 0
  }

  ghost predicate CanBeRead(data: seq<byte>, entry: nat, little: bool) {
    exists values :: EntryHolds(data, entry, values, little)
  }

  ghost predicate EntryIsGood(data: seq<byte>, directory: nat, i: nat, little: bool) {
    IsKnown(TagAt(data, directory, i, little)) ==> CanBeRead(data, directory + 2 + 12 * i, little)
  }

  ghost predicate Repeated(data: seq<byte>, directory: nat, i: nat, j: nat, little: bool) {
    IsKnown(TagAt(data, directory, i, little)) && TagAt(data, directory, i, little) == TagAt(data, directory, j, little)
  }

  /** Every entry with a known tag can be read, and no known tag is repeated. */
  ghost predicate WellFormed(data: seq<byte>, directory: nat, n: nat, little: bool) {
    && (forall i: nat :: i < n ==> EntryIsGood(data, directory, i, little))
    && (forall i: nat, j: nat :: i < j < n ==> !Repeated(data, directory, i, j, little))
  }

  /** The directory holds these values for the tag. */
  ghost predicate FieldIs(data: seq<byte>, directory: nat, n: nat, tag: nat, values: seq<nat>, little: bool) {
    exists i: nat :: i < n && FieldAt(data, directory, i, tag, values, little)
  }

  /** Entry i holds them. */
  ghost predicate FieldAt(data: seq<byte>, directory: nat, i: nat, tag: nat, values: seq<nat>, little: bool) {
    TagAt(data, directory, i, little) == tag && EntryHolds(data, directory + 2 + 12 * i, values, little)
  }

  ghost predicate FieldIsMissing(data: seq<byte>, directory: nat, n: nat, tag: nat, little: bool) {
    forall i: nat :: i < n ==> TagAt(data, directory, i, little) != tag
  }

  ghost predicate FieldSays(data: seq<byte>, directory: nat, n: nat, tag: nat, fields: Fields, little: bool) {
    if tag in fields then FieldIs(data, directory, n, tag, fields[tag], little)
    else FieldIsMissing(data, directory, n, tag, little)
  }

  ghost predicate FieldsSay(data: seq<byte>, directory: nat, n: nat, fields: Fields, little: bool) {
    forall tag :: IsKnown(tag) ==> FieldSays(data, directory, n, tag, fields, little)
  }

  ghost predicate Says(data: seq<byte>, directory: nat, n: nat, fields: Option<Fields>, little: bool) {
    && (fields.Some? <==> WellFormed(data, directory, n, little))
    && (fields.Some? ==> FieldsSay(data, directory, n, fields.value, little))
  }

  /** The fields that are read from a directory are those that it holds; they can be read exactly when the
      directory is well formed. */
  lemma {:induction false} DirectoryMeans(data: seq<byte>, directory: nat, n: nat, little: bool)
    requires directory + 2 + 12 * n <= |data|
    ensures Says(data, directory, n, Directory(data, directory, n, little), little)
  {
    if n == 0 {
      NoEntries(data, directory, little);
    } else {
      DirectoryMeans(data, directory, n - 1, little);
      NextIsSaid(data, directory, n - 1, Directory(data, directory, n - 1, little), little);
      DirectoryGrows(data, directory, n - 1, little);
    }
  }

  lemma DirectoryGrows(data: seq<byte>, directory: nat, n: nat, little: bool)
    requires directory + 2 + 12 * (n + 1) <= |data|
    ensures var before := Directory(data, directory, n, little);
            Directory(data, directory, n + 1, little)
            == if before.None? then None else WithEntry(data, directory + 2 + 12 * n, little, before.value)
  {
  }

  lemma NoEntries(data: seq<byte>, directory: nat, little: bool)
    ensures Says(data, directory, 0, Some(map[]), little)
  {
  }

  lemma NextIsSaid(data: seq<byte>, directory: nat, n: nat, before: Option<Fields>, little: bool)
    requires directory + 2 + 12 * (n + 1) <= |data| && Says(data, directory, n, before, little)
    ensures Says(data, directory, n + 1,
                 if before.None? then None else WithEntry(data, directory + 2 + 12 * n, little, before.value), little)
  {
    if before.Some? {
      NextIsGood(data, directory, n, before.value, little);
    } else {
      StaysMalformed(data, directory, n, little);
    }
  }

  lemma StaysMalformed(data: seq<byte>, directory: nat, n: nat, little: bool)
    requires !WellFormed(data, directory, n, little)
    ensures !WellFormed(data, directory, n + 1, little)
  {
  }

  /** Entry n. */
  lemma NextIsGood(data: seq<byte>, directory: nat, n: nat, fields: Fields, little: bool)
    requires directory + 2 + 12 * (n + 1) <= |data|
    requires WellFormed(data, directory, n, little) && FieldsSay(data, directory, n, fields, little)
    ensures var next := WithEntry(data, directory + 2 + 12 * n, little, fields);
            && (next.Some? <==> WellFormed(data, directory, n + 1, little))
            && (next.Some? ==> FieldsSay(data, directory, n + 1, next.value, little))
  {
    var entry := directory + 2 + 12 * n;
    var next, tag := WithEntry(data, entry, little, fields), TagAt(data, directory, n, little);
    NumberInOrder(data, entry, 2, little);
    if IsKnown(tag) {
      EntryCanBeRead(data, entry, little);
      NextIsNew(data, directory, n, tag, fields, little);
    }
    OneMoreIsGood(data, directory, n, little);
    if next.Some? {
      forall other | IsKnown(other) ensures FieldSays(data, directory, n + 1, other, next.value, little) {
        OneMoreSays(data, directory, n, other, fields, next.value, little);
      }
    }
  }

  lemma EntryCanBeRead(data: seq<byte>, entry: nat, little: bool)
    requires entry + 12 <= |data|
    ensures var values := EntryValues(data, entry, little);
            if CanBeRead(data, entry, little) then values.Some? && EntryHolds(data, entry, values.value, little) else values.None?
  {
    if CanBeRead(data, entry, little) {
      var values :| EntryHolds(data, entry, values, little);
      EntryMeans(data, entry, little, values);
    } else if EntryValues(data, entry, little).Some? {
      EntryMeans(data, entry, little, EntryValues(data, entry, little).value);
      assert false;
    }
  }

  lemma OneMoreIsGood(data: seq<byte>, directory: nat, n: nat, little: bool)
    requires WellFormed(data, directory, n, little)
    ensures WellFormed(data, directory, n + 1, little) <==>
            EntryIsGood(data, directory, n, little) && !exists i: nat :: i < n && Repeated(data, directory, i, n, little)
  {
  }

  lemma NextIsNew(data: seq<byte>, directory: nat, n: nat, tag: nat, fields: Fields, little: bool)
    requires IsKnown(tag) && tag == TagAt(data, directory, n, little) && FieldSays(data, directory, n, tag, fields, little)
    ensures tag in fields <==> exists i: nat :: i < n && Repeated(data, directory, i, n, little)
  {
    if tag in fields {
      var i: nat :| i < n && FieldAt(data, directory, i, tag, fields[tag], little);
      assert Repeated(data, directory, i, n, little);
    }
  }

  lemma OneMoreSays(data: seq<byte>, directory: nat, n: nat, tag: nat, fields: Fields, next: Fields, little: bool)
    requires FieldSays(data, directory, n, tag, fields, little)
    requires if tag == TagAt(data, directory, n, little)
             then tag in next && EntryHolds(data, directory + 2 + 12 * n, next[tag], little)
             else (tag in next <==> tag in fields) && (tag in next ==> next[tag] == fields[tag])
    ensures FieldSays(data, directory, n + 1, tag, next, little)
  {
    if tag == TagAt(data, directory, n, little) {
      assert FieldAt(data, directory, n, tag, next[tag], little);
    }
  }

  /** Entry i, at this place, may be seen by another decoder. */
  ghost predicate IsKept(data: seq<byte>, directory: nat, i: nat, place: nat, little: bool) {
    place == directory + 2 + 12 * i && TagAt(data, directory, i, little) != 338 && TagAt(data, directory, i, little) != 339
  }

  ghost predicate KeptAmong(data: seq<byte>, directory: nat, n: nat, place: nat, little: bool) {
    exists i: nat :: i < n && IsKept(data, directory, i, place, little)
  }

  /** These are the entries that another decoder may see, in the order of the file. */
  ghost predicate Keeps(data: seq<byte>, directory: nat, n: nat, kept: seq<nat>, little: bool) {
    && (forall place: nat :: place in kept <==> KeptAmong(data, directory, n, place, little))
    && (forall a, b :: 0 <= a < b < |kept| ==> kept[a] < kept[b])
  }

  /** Another decoder sees all entries but those of tags 338 and 339. */
  lemma {:induction false} KeptEntries(data: seq<byte>, directory: nat, n: nat, little: bool)
    requires directory + 2 + 12 * n <= |data|
    ensures Keeps(data, directory, n, DecoderEntries(data, directory, n, little), little)
  {
    if n > 0 {
      KeptEntries(data, directory, n - 1, little);
      NumberInOrder(data, directory + 2 + 12 * (n - 1), 2, little);
      KeptOneMore(data, directory, n - 1, DecoderEntries(data, directory, n - 1, little), little);
    }
  }

  lemma KeptOneMore(data: seq<byte>, directory: nat, n: nat, kept: seq<nat>, little: bool)
    requires Keeps(data, directory, n, kept, little)
    ensures var entry := directory + 2 + 12 * n;
            Keeps(data, directory, n + 1, kept + if IsKept(data, directory, n, entry, little) then [entry] else [], little)
  {
    var entry := directory + 2 + 12 * n;
    var more := kept + if IsKept(data, directory, n, entry, little) then [entry] else [];
    forall place: nat ensures place in more <==> KeptAmong(data, directory, n + 1, place, little) {
      if KeptAmong(data, directory, n, place, little) {
        var i: nat :| i < n && IsKept(data, directory, i, place, little);
      }
    }
    forall a | 0 <= a < |kept| ensures kept[a] < entry {
      assert kept[a] in kept && KeptAmong(data, directory, n, kept[a], little);
    }
  }

  // Pixels ---------------------------------------------------------------------------------------------

  /** The pixel at column x of line y, least significant byte first, is the number that the file has in its own
      byte order at the pixel's place: in strip y / rows, on line y % rows of it. */
  ghost predicate PixelSays(data: seq<byte>, pixels: seq<byte>, x: nat, y: nat, width: nat, rows: nat, size: nat,
                            offsets: seq<nat>, little: bool)
  {
    && (size == 2 || size == 4) && rows > 0 && y / rows < |offsets|
    && var at, place := (y * width + x) * size, offsets[y / rows] + (y % rows * width + x) * size;
       && at + size <= |pixels| && place + size <= |data|
       && InOrder(pixels, at, size, true) == InOrder(data, place, size, little)
  }

  /** Byte b of sample j of strip i among the pixels of n strips. */
  lemma {:induction false} StripsAt(data: seq<byte>, offsets: seq<nat>, counts: seq<nat>, n: nat, samples: seq<nat>,
                                    bytes: nat, little: bool, i: nat, j: nat, b: nat)
    requires i < n <= |offsets| == |counts| == |samples| && j < samples[i] && b < bytes
    requires Strips(data, offsets, counts, n, samples, bytes, little).Some?
    ensures var pixels, at := Strips(data, offsets, counts, n, samples, bytes, little).value, Times(j, bytes);
            && Filled(samples, i, bytes) + at + bytes <= |pixels| && offsets[i] + at + bytes <= |data|
            && pixels[Filled(samples, i, bytes) + at + b] == data[offsets[i] + at + if little then b else bytes - b - 1]
  {
    StripsLength(data, offsets, counts, n - 1, samples, bytes, little);
    if i < n - 1 {
      StripsAt(data, offsets, counts, n - 1, samples, bytes, little, i, j, b);
    } else {
      StripAt(data, offsets[i], samples[i], bytes, little, j, b);
    }
  }

  predicate SameByte(pixels: seq<byte>, at: nat, data: seq<byte>, place: nat, size: nat, little: bool, b: nat) {
    && b < size && at + size <= |pixels| && place + size <= |data|
    && pixels[at + b] == data[place + if little then b else size - b - 1]
  }

  lemma SameNumber(pixels: seq<byte>, at: nat, data: seq<byte>, place: nat, size: nat, little: bool)
    requires (size == 2 || size == 4) && forall b: nat :: b < size ==> SameByte(pixels, at, data, place, size, little, b)
    ensures at + size <= |pixels| && place + size <= |data|
    ensures InOrder(pixels, at, size, true) == InOrder(data, place, size, little)
  {
    assert SameByte(pixels, at, data, place, size, little, 0) && SameByte(pixels, at, data, place, size, little, 1);
    if size == 4 {
      assert SameByte(pixels, at, data, place, size, little, 2) && SameByte(pixels, at, data, place, size, little, 3);
    }
  }

  lemma SampleSays(data: seq<byte>, offsets: seq<nat>, counts: seq<nat>, samples: seq<nat>, size: nat, little: bool, i: nat, j: nat)
    requires i < |offsets| == |counts| == |samples| && j < samples[i] && (size == 2 || size == 4)
    requires Strips(data, offsets, counts, |offsets|, samples, size, little).Some?
    ensures var pixels := Strips(data, offsets, counts, |offsets|, samples, size, little).value;
            var at, place := Filled(samples, i, size) + j * size, offsets[i] + j * size;
            && at + size <= |pixels| && place + size <= |data|
            && InOrder(pixels, at, size, true) == InOrder(data, place, size, little)
  {
    var pixels := Strips(data, offsets, counts, |offsets|, samples, size, little).value;
    var at, place := Filled(samples, i, size) + j * size, offsets[i] + j * size;
    TimesIs(j, size);
    forall b: nat | b < size ensures SameByte(pixels, at, data, place, size, little, b) {
      StripsAt(data, offsets, counts, |offsets|, samples, size, little, i, j, b);
    }
    SameNumber(pixels, at, data, place, size, little);
  }

  lemma PlaceOfPixel(x: nat, y: nat, width: nat, rows: nat, size: nat, i: nat, r: nat)
    requires y == i * rows + r
    ensures i * rows * width * size + (r * width + x) * size == (y * width + x) * size
  {
    assert y * width == i * rows * width + r * width;
    Distribute(i * rows * width, r * width + x, size);
  }

  lemma Distribute(a: nat, b: nat, size: nat)
    ensures a * size + b * size == (a + b) * size
  {
  }

  lemma LineOfStrip(x: nat, y: nat, width: nat, height: nat, rows: nat)
    requires x < width && y < height && rows > 0
    ensures y / rows < (height - 1) / rows + 1 && y / rows * rows <= y && y == y / rows * rows + y % rows
    ensures y % rows * width + x < StripRows(height, rows, y / rows) * width
    ensures RowsBefore(height, rows, y / rows) == y / rows * rows
  {
    var i, r := y / rows, y % rows;
    assert y == i * rows + r;
    QuotientBounds(i, height - 1, rows);
    RowsBeforeIs(height, rows, i);
    assert r + 1 <= StripRows(height, rows, i);
    Line(r, StripRows(height, rows, i), width);
  }

  lemma Line(r: nat, n: nat, width: nat)
    requires r + 1 <= n
    ensures r * width + width <= n * width
  {
    assert n * width == (n - r - 1) * width + r * width + width;
    assert (n - r - 1) * width >= 0;
  }

  lemma PlaceInStrips(x: nat, y: nat, width: nat, height: nat, rows: nat, size: nat, n: nat)
    requires x < width && y < height && rows > 0 && n == (height - 1) / rows + 1
    ensures y / rows < n && y % rows * width + x < StripSamples(width, height, rows, n)[y / rows]
    ensures Filled(StripSamples(width, height, rows, n), y / rows, size) + (y % rows * width + x) * size == (y * width + x) * size
  {
    LineOfStrip(x, y, width, height, rows);
    FilledIs(width, height, rows, y / rows, n, size);
    PlaceOfPixel(x, y, width, rows, size, y / rows, y % rows);
  }

  lemma PixelIsItsNumber(data: seq<byte>, x: nat, y: nat, width: nat, height: nat, rows: nat, size: nat, offsets: seq<nat>,
                         counts: seq<nat>, samples: seq<nat>, little: bool)
    requires x < width && y < height && rows > 0 && (size == 2 || size == 4)
    requires |offsets| == |counts| == (height - 1) / rows + 1 && samples == StripSamples(width, height, rows, |offsets|)
    requires Strips(data, offsets, counts, |offsets|, samples, size, little).Some?
    ensures PixelSays(data, Strips(data, offsets, counts, |offsets|, samples, size, little).value, x, y, width, rows, size,
                      offsets, little)
  {
    PlaceInStrips(x, y, width, height, rows, size, |offsets|);
    SampleAt(data, offsets, counts, samples, size, little, y / rows, y % rows * width + x, x, y, width, rows);
  }

  lemma SampleAt(data: seq<byte>, offsets: seq<nat>, counts: seq<nat>, samples: seq<nat>, size: nat, little: bool,
                 i: nat, j: nat, x: nat, y: nat, width: nat, rows: nat)
    requires i < |offsets| == |counts| == |samples| && j < samples[i] && (size == 2 || size == 4)
    requires Strips(data, offsets, counts, |offsets|, samples, size, little).Some?
    requires rows > 0 && i == y / rows && j == y % rows * width + x && Filled(samples, i, size) + j * size == (y * width + x) * size
    ensures PixelSays(data, Strips(data, offsets, counts, |offsets|, samples, size, little).value, x, y, width, rows, size,
                      offsets, little)
  {
    SampleSays(data, offsets, counts, samples, size, little, i, j);
  }

  // Images ---------------------------------------------------------------------------------------------

  /** Size, sample type and strips of a depth image. */
  datatype Shape = Shape(width: nat, height: nat, isFloat: bool, rows: nat, offsets: seq<nat>, counts: seq<nat>)

  predicate IsField(fields: Fields, tag: nat, values: seq<nat>) {
    tag in fields && fields[tag] == values
  }

  predicate IsDefault(fields: Fields, tag: nat, value: nat) {
    tag in fields ==> fields[tag] == [value]
  }

  /** The fields are those of an uncompressed, upright, single-channel image of 16-bit unsigned or 32-bit float samples. */
  predicate HasSamples(fields: Fields, isFloat: bool) {
    && IsDefault(fields, 277, 1) && IsDefault(fields, 259, 1) && IsDefault(fields, 262, 1)
    && IsDefault(fields, 274, 1) && IsDefault(fields, 284, 1) && 338 !in fields
    && if isFloat then IsField(fields, 258, [32]) && IsField(fields, 339, [3])
       else IsField(fields, 258, [16]) && IsDefault(fields, 339, 1)
  }

  ghost predicate StripSays(size: nat, offset: nat, count: nat, lines: nat, width: nat, bytes: nat) {
    count == lines * width * bytes && offset + count <= size
  }

  /** ... and of this shape: strips of `rows` lines each, the last one of what is left. */
  ghost predicate HasShape(fields: Fields, size: nat, shape: Shape) {
    var Shape(width, height, isFloat, rows, offsets, counts) := shape;
    var bytes := if isFloat then 4 else 2;
    && IsField(fields, 256, [width]) && IsField(fields, 257, [height]) && width > 0 && height > 0
    && height * width * bytes <= 67108864
    && (if 278 in fields then fields[278] == [rows] else rows == height) && rows > 0
    && IsField(fields, 273, offsets) && IsField(fields, 279, counts)
    && |offsets| == |counts| == (height - 1) / rows + 1
    && forall i: nat :: i < |offsets| ==> StripSays(size, offsets[i], counts[i], StripRows(height, rows, i), width, bytes)
  }

  lemma {:induction false} StripsMean(data: seq<byte>, offsets: seq<nat>, counts: seq<nat>, n: nat, width: nat, height: nat,
                                      rows: nat, bytes: nat, little: bool)
    requires n <= |offsets| == |counts|
    ensures Strips(data, offsets, counts, n, StripSamples(width, height, rows, |offsets|), bytes, little).Some? <==>
            forall i: nat :: i < n ==> StripSays(|data|, offsets[i], counts[i], StripRows(height, rows, i), width, bytes)
  {
    if n > 0 {
      StripsMean(data, offsets, counts, n - 1, width, height, rows, bytes, little);
      OneMoreStrip(data, offsets, counts, n - 1, StripSamples(width, height, rows, |offsets|), bytes, little,
                   StripRows(height, rows, n - 1), width);
    }
  }

  lemma OneMoreStrip(data: seq<byte>, offsets: seq<nat>, counts: seq<nat>, n: nat, samples: seq<nat>, bytes: nat, little: bool,
                     lines: nat, width: nat)
    requires n < |offsets| == |counts| == |samples| && samples[n] == lines * width
    ensures Strips(data, offsets, counts, n + 1, samples, bytes, little).Some? <==>
            && Strips(data, offsets, counts, n, samples, bytes, little).Some?
            && StripSays(|data|, offsets[n], counts[n], lines, width, bytes)
  {
    TimesIs(lines * width, bytes);
  }

  /** An image is laid out exactly for a shape. */
  lemma LayoutMeans(fields: Fields, data: seq<byte>, little: bool, isFloat: bool, shape: Shape)
    requires |List(fields, 273)| == |List(fields, 279)| && shape.isFloat == isFloat
    requires shape.width == Scalar(fields, 256, 0) && shape.height == Scalar(fields, 257, 0)
    requires shape.rows == Scalar(fields, 278, shape.height)
    requires shape.offsets == List(fields, 273) && shape.counts == List(fields, 279)
    ensures var r := Layout(fields, data, little, if isFloat then 32 else 16, if isFloat then 3 else 1);
            if HasShape(fields, |data|, shape) then HasPixels(r, data, shape, little) else r == Invalid
  {
    var bytes := if isFloat then 4 else 2;
    var Shape(width, height, _, rows, offsets, counts) := shape;
    if width > 0 && height > 0 {
      GoodSizeFits(width, height, bytes);
      StripsMean(data, offsets, counts, |offsets|, width, height, rows, bytes, little);
    }
    if HasShape(fields, |data|, shape) {
      var samples := StripSamples(width, height, rows, |offsets|);
      forall x: nat, y: nat | x < width && y < height
        ensures PixelSays(data, Strips(data, offsets, counts, |offsets|, samples, bytes, little).value, x, y, width, rows, bytes,
                          offsets, little)
      {
        PixelIsItsNumber(data, x, y, width, height, rows, bytes, offsets, counts, samples, little);
      }
    }
  }

  /** An image of this shape with the pixels of the file. */
  ghost predicate HasPixels(image: Decoded, data: seq<byte>, shape: Shape, little: bool) {
    var Shape(width, height, isFloat, rows, offsets, _) := shape;
    var bytes := if isFloat then 4 else 2;
    && image.Image? && image.width == width && image.height == height && image.isFloat == isFloat
    && forall x: nat, y: nat :: x < width && y < height ==>
         PixelSays(data, image.pixels, x, y, width, rows, bytes, offsets, little)
  }

  /** Fields that are handed over to another decoder: unsigned samples of at most 16 bits, all of one width. */
  ghost predicate HandsOver(fields: Fields, size: nat, samples: nat, bits: nat) {
    && (if 277 in fields then fields[277] == [samples] else samples == 1) && 1 <= samples <= 4
    && 1 <= bits <= 16 && AllAre(fields, 258, 1, samples, bits) && AllAre(fields, 339, 1, samples, 1)
    && (samples == 1 && bits == 16 ==> !IsDefault(fields, 259, 1))
    && (338 in fields ==> samples == 4 && fields[338] == [2] && IsField(fields, 262, [2]))
    && |List(fields, 273)| == |List(fields, 279)|
    && forall i: nat :: i < |List(fields, 273)| ==> EndsWithin(size, List(fields, 273)[i], List(fields, 279)[i])
  }

  predicate EndsWithin(size: nat, offset: nat, count: nat) {
    offset + count <= size
  }

  /** A per-channel field with the same value for all channels. */
  ghost predicate AllAre(fields: Fields, tag: nat, fallback: nat, samples: nat, value: nat) {
    if tag in fields then
      (|fields[tag]| == 1 || |fields[tag]| == samples > 0) && forall i :: 0 <= i < |fields[tag]| ==> fields[tag][i] == value
    else value == fallback
  }

  lemma UniformMeans(fields: Fields, tag: nat, fallback: nat, samples: nat, value: nat)
    ensures Uniform(fields, tag, fallback, samples) == Some(value) <==> AllAre(fields, tag, fallback, samples, value)
  {
  }

  lemma ScalarMeans(fields: Fields, tag: nat)
    ensures Scalar(fields, tag, 1) == 1 <==> IsDefault(fields, tag, 1)
    ensures Scalar(fields, tag, 1) == 2 <==> IsField(fields, tag, [2])
  {
    if tag in fields && |fields[tag]| == 1 {
      assert fields[tag] == [fields[tag][0]];
    }
  }

  lemma RangesMean(size: nat, offsets: seq<nat>, counts: seq<nat>)
    requires |offsets| == |counts|
    ensures StripsInRange(size, offsets, counts) <==> forall i: nat :: i < |offsets| ==> EndsWithin(size, offsets[i], counts[i])
  {
    if StripsInRange(size, offsets, counts) {
      forall i: nat | i < |offsets| ensures EndsWithin(size, offsets[i], counts[i]) {
        assert StripInRange(size, offsets, counts, i);
      }
    } else {
      var i: nat :| i < |offsets| && !StripInRange(size, offsets, counts, i);
      assert !EndsWithin(size, offsets[i], counts[i]);
    }
  }

  lemma SamplesMean(fields: Fields, samples: nat)
    requires samples > 0
    ensures Scalar(fields, 277, 1) == samples <==> if 277 in fields then fields[277] == [samples] else samples == 1
  {
    if 277 in fields && |fields[277]| == 1 {
      assert fields[277] == [fields[277][0]];
    }
  }

  lemma HandsOverMeans(fields: Fields, data: seq<byte>, little: bool, samples: nat, bits: nat)
    requires samples > 0
    ensures HandsOver(fields, |data|, samples, bits) <==>
            && Interpreted(fields, data, little).Other? && Scalar(fields, 277, 1) == samples
            && Uniform(fields, 258, 1, samples) == Some(bits)
  {
    SamplesMean(fields, samples);
    ScalarMeans(fields, 259);
    ExtraMeans(fields, samples);
    if |List(fields, 273)| == |List(fields, 279)| {
      RangesMean(|data|, List(fields, 273), List(fields, 279));
    }
    UniformMeans(fields, 339, 1, samples, 1);
    UniformMeans(fields, 258, 1, samples, bits);
  }

  /** Exactly such fields are handed over; in particular no float sample ever is. */
  lemma HandedOverMeans(fields: Fields, data: seq<byte>, little: bool)
    ensures Interpreted(fields, data, little).Other? <==> exists samples, bits :: HandsOver(fields, |data|, samples, bits)
  {
    if Interpreted(fields, data, little).Other? {
      var samples := Scalar(fields, 277, 1);
      HandsOverMeans(fields, data, little, samples, Uniform(fields, 258, 1, samples).value);
    } else if exists samples, bits :: HandsOver(fields, |data|, samples, bits) {
      var samples, bits :| HandsOver(fields, |data|, samples, bits);
      HandsOverMeans(fields, data, little, samples, bits);
      assert false;
    }
  }

  lemma ExtraMeans(fields: Fields, samples: nat)
    ensures !BadExtraSamples(fields, samples) <==>
            (338 in fields ==> samples == 4 && fields[338] == [2] && IsField(fields, 262, [2]))
  {
    ScalarMeans(fields, 262);
    if 338 in fields && |fields[338]| == 1 {
      assert fields[338] == [fields[338][0]];
    }
  }

  // Files ----------------------------------------------------------------------------------------------

  ghost predicate Describes(fields: Fields, size: nat, shape: Shape) {
    HasSamples(fields, shape.isFloat) && HasShape(fields, size, shape)
  }

  function ShapeOf(fields: Fields, isFloat: bool): Shape {
    var height := Scalar(fields, 257, 0);
    Shape(Scalar(fields, 256, 0), height, isFloat, Scalar(fields, 278, height), List(fields, 273), List(fields, 279))
  }

  lemma ShapeIsOne(fields: Fields, size: nat, shape: Shape)
    requires HasShape(fields, size, shape)
    ensures shape == ShapeOf(fields, shape.isFloat)
  {
  }

  /** Up to the strips, an image is taken as one exactly for these samples. */
  lemma SamplesAreRead(fields: Fields, data: seq<byte>, little: bool, isFloat: bool)
    requires HasSamples(fields, isFloat)
    requires |List(fields, 273)| == |List(fields, 279)| && StripsInRange(|data|, List(fields, 273), List(fields, 279))
    ensures Interpreted(fields, data, little) == Layout(fields, data, little, if isFloat then 32 else 16, if isFloat then 3 else 1)
  {
    UniformMeans(fields, 258, 1, 1, if isFloat then 32 else 16);
    UniformMeans(fields, 339, 1, 1, if isFloat then 3 else 1);
    ScalarMeans(fields, 277);
    ScalarMeans(fields, 259);
    ScalarMeans(fields, 262);
    ScalarMeans(fields, 274);
    ScalarMeans(fields, 284);
  }

  lemma SamplesOfImage(fields: Fields, data: seq<byte>, little: bool) returns (isFloat: bool)
    requires Interpreted(fields, data, little).Image?
    ensures HasSamples(fields, isFloat)
    ensures |List(fields, 273)| == |List(fields, 279)| && StripsInRange(|data|, List(fields, 273), List(fields, 279))
  {
    var bits, format := Uniform(fields, 258, 1, 1).value, Uniform(fields, 339, 1, 1).value;
    isFloat := format == 3;
    UniformMeans(fields, 258, 1, 1, bits);
    UniformMeans(fields, 339, 1, 1, format);
    ScalarMeans(fields, 277);
    ScalarMeans(fields, 259);
    ScalarMeans(fields, 262);
    ScalarMeans(fields, 274);
    ScalarMeans(fields, 284);
  }

  lemma DescribedIsImage(fields: Fields, data: seq<byte>, little: bool, shape: Shape)
    requires Describes(fields, |data|, shape)
    ensures HasPixels(Interpreted(fields, data, little), data, shape, little)
  {
    ShapeIsOne(fields, |data|, shape);
    forall i: nat | i < |shape.offsets| ensures EndsWithin(|data|, shape.offsets[i], shape.counts[i]) {
      assert StripSays(|data|, shape.offsets[i], shape.counts[i], StripRows(shape.height, shape.rows, i), shape.width,
                       if shape.isFloat then 4 else 2);
    }
    RangesMean(|data|, shape.offsets, shape.counts);
    SamplesAreRead(fields, data, little, shape.isFloat);
    LayoutMeans(fields, data, little, shape.isFloat, shape);
  }

  lemma ImageIsDescribed(fields: Fields, data: seq<byte>, little: bool) returns (shape: Shape)
    requires Interpreted(fields, data, little).Image?
    ensures Describes(fields, |data|, shape)
  {
    var isFloat := SamplesOfImage(fields, data, little);
    shape := ShapeOf(fields, isFloat);
    SamplesAreRead(fields, data, little, isFloat);
    LayoutMeans(fields, data, little, isFloat, shape);
  }

  /** A TIFF file within 64 MiB with a well formed directory of n entries. */
  ghost predicate IsTiff(data: seq<byte>, little: bool, directory: nat, n: nat) {
    && 8 <= |data| <= 67108864 && data[..4] == (if little then [0x49, 0x49, 0x2A, 0x00] else [0x4D, 0x4D, 0x00, 0x2A])
    && directory == InOrder(data, 4, 4, little) && directory + 2 <= |data|
    && n == InOrder(data, directory, 2, little) && directory + 2 + 12 * n <= |data|
    && WellFormed(data, directory, n, little)
  }

  predicate IsPng(data: seq<byte>) {
    8 <= |data| <= 67108864 && data[..8] == [0x89, 0x50, 0x4E, 0x47, 0x0D, 0x0A, 0x1A, 0x0A]
  }

  /** The fields of a TIFF file. */
  lemma TiffIsRead(data: seq<byte>, little: bool, directory: nat, n: nat) returns (fields: Fields)
    requires IsTiff(data, little, directory, n)
    ensures FieldsSay(data, directory, n, fields, little) && DecodedImage(data) == Interpreted(fields, data, little) && !IsPng(data)
  {
    NumberInOrder(data, 4, 4, little);
    NumberInOrder(data, directory, 2, little);
    DirectoryMeans(data, directory, n, little);
    fields := Directory(data, directory, n, little).value;
    assert data[..4][0] == data[0] == data[..8][0];
  }

  lemma ReadIsTiff(data: seq<byte>) returns (little: bool, directory: nat, n: nat)
    requires !DecodedImage(data).Invalid? && !IsPng(data)
    ensures IsTiff(data, little, directory, n)
  {
    little := data[0] == 'I' as int as byte;
    assert data[..4][0] == data[0];
    NumberInOrder(data, 4, 4, little);
    directory := InOrder(data, 4, 4, little);
    NumberInOrder(data, directory, 2, little);
    n := InOrder(data, directory, 2, little);
    DirectoryMeans(data, directory, n, little);
  }

  ghost predicate Agree(a: Fields, b: Fields, tag: nat) {
    (tag in a <==> tag in b) && (tag in a ==> a[tag] == b[tag])
  }

  lemma FieldsAgree(data: seq<byte>, directory: nat, n: nat, a: Fields, b: Fields, tag: nat, little: bool)
    requires WellFormed(data, directory, n, little) && IsKnown(tag)
    requires FieldSays(data, directory, n, tag, a, little) && FieldSays(data, directory, n, tag, b, little)
    ensures Agree(a, b, tag)
  {
    if tag in a && tag in b {
      FieldIsUnique(data, directory, n, tag, a[tag], b[tag], little);
    }
  }

  lemma FieldIsUnique(data: seq<byte>, directory: nat, n: nat, tag: nat, a: seq<nat>, b: seq<nat>, little: bool)
    requires WellFormed(data, directory, n, little) && IsKnown(tag)
    requires FieldIs(data, directory, n, tag, a, little) && FieldIs(data, directory, n, tag, b, little)
    ensures a == b
  {
    var i: nat :| i < n && FieldAt(data, directory, i, tag, a, little);
    var j: nat :| j < n && FieldAt(data, directory, j, tag, b, little);
    SameEntry(data, directory, n, i, j, little);
    HoldsOne(data, directory, i, tag, a, b, little);
  }

  lemma SameEntry(data: seq<byte>, directory: nat, n: nat, i: nat, j: nat, little: bool)
    requires WellFormed(data, directory, n, little) && i < n && j < n && IsKnown(TagAt(data, directory, i, little))
    requires TagAt(data, directory, i, little) == TagAt(data, directory, j, little)
    ensures i == j
  {
    assert i < j ==> Repeated(data, directory, i, j, little);
    assert j < i ==> Repeated(data, directory, j, i, little);
  }

  lemma HoldsOne(data: seq<byte>, directory: nat, i: nat, tag: nat, a: seq<nat>, b: seq<nat>, little: bool)
    requires FieldAt(data, directory, i, tag, a, little) && FieldAt(data, directory, i, tag, b, little)
    ensures a == b
  {
    EntryMeans(data, directory + 2 + 12 * i, little, a);
    EntryMeans(data, directory + 2 + 12 * i, little, b);
  }

  /** What a file is read as depends only on the fields that its directory holds. */
  lemma SameFieldsSameImage(a: Fields, b: Fields, size: nat, shape: Shape)
    requires forall tag :: IsKnown(tag) ==> Agree(a, b, tag)
    requires Describes(a, size, shape)
    ensures Describes(b, size, shape)
  {
    assert Agree(a, b, 256) && Agree(a, b, 257) && Agree(a, b, 258) && Agree(a, b, 259) && Agree(a, b, 262) && Agree(a, b, 273);
    assert Agree(a, b, 274) && Agree(a, b, 277) && Agree(a, b, 278) && Agree(a, b, 279) && Agree(a, b, 284);
    assert Agree(a, b, 338) && Agree(a, b, 339);
  }

  lemma SameFieldsHandOver(a: Fields, b: Fields, size: nat, samples: nat, bits: nat)
    requires forall tag :: IsKnown(tag) ==> Agree(a, b, tag)
    requires HandsOver(a, size, samples, bits)
    ensures HandsOver(b, size, samples, bits)
  {
    assert Agree(a, b, 258) && Agree(a, b, 259) && Agree(a, b, 262) && Agree(a, b, 273);
    assert Agree(a, b, 277) && Agree(a, b, 279) && Agree(a, b, 338) && Agree(a, b, 339);
  }

  lemma OwnFields(data: seq<byte>, little: bool, directory: nat, n: nat, fields: Fields) returns (own: Fields)
    requires IsTiff(data, little, directory, n) && FieldsSay(data, directory, n, fields, little)
    ensures FieldsSay(data, directory, n, own, little) && DecodedImage(data) == Interpreted(own, data, little) && !IsPng(data)
    ensures forall tag :: IsKnown(tag) ==> Agree(fields, own, tag)
  {
    own := TiffIsRead(data, little, directory, n);
    forall tag | IsKnown(tag) ensures Agree(fields, own, tag) {
      assert FieldSays(data, directory, n, tag, fields, little) && FieldSays(data, directory, n, tag, own, little);
      FieldsAgree(data, directory, n, fields, own, tag, little);
    }
  }

  /** A TIFF file whose directory holds the fields of a depth image of this shape. */
  ghost predicate IsDepthTiff(data: seq<byte>, little: bool, directory: nat, n: nat, fields: Fields, shape: Shape) {
    IsTiff(data, little, directory, n) && FieldsSay(data, directory, n, fields, little) && Describes(fields, |data|, shape)
  }

  /** A TIFF file that is left to another decoder. */
  ghost predicate IsOtherTiff(data: seq<byte>, little: bool, directory: nat, n: nat, fields: Fields, samples: nat, bits: nat) {
    IsTiff(data, little, directory, n) && FieldsSay(data, directory, n, fields, little) && HandsOver(fields, |data|, samples, bits)
  }

  /** Every depth image is decoded to the pixels that stand in its strips, whatever its byte order. */
  lemma DepthTiffIsDecoded(data: seq<byte>, little: bool, directory: nat, n: nat, fields: Fields, shape: Shape)
    requires IsDepthTiff(data, little, directory, n, fields, shape)
    ensures HasPixels(DecodedImage(data), data, shape, little)
  {
    var own := OwnFields(data, little, directory, n, fields);
    SameFieldsSameImage(fields, own, |data|, shape);
    DescribedIsImage(own, data, little, shape);
  }

  /** Nothing else is decoded to an image: for all bytes whatever. */
  lemma DecodedIsDepthTiff(data: seq<byte>) returns (little: bool, directory: nat, n: nat, fields: Fields, shape: Shape)
    requires DecodedImage(data).Image?
    ensures IsDepthTiff(data, little, directory, n, fields, shape) && HasPixels(DecodedImage(data), data, shape, little)
  {
    little, directory, n := ReadIsTiff(data);
    fields := TiffIsRead(data, little, directory, n);
    shape := ImageIsDescribed(fields, data, little);
    DepthTiffIsDecoded(data, little, directory, n, fields, shape);
  }

  /** What is left to another decoder: PNG files, and TIFF files of unsigned samples of at most 16 bits. */
  lemma OtherMeans(data: seq<byte>)
    ensures DecodedImage(data).Other? <==>
            || IsPng(data)
            || exists little, directory, n, fields, samples, bits :: IsOtherTiff(data, little, directory, n, fields, samples, bits)
  {
    if DecodedImage(data).Other? && !IsPng(data) {
      var little, directory, n := ReadIsTiff(data);
      var fields := TiffIsRead(data, little, directory, n);
      HandedOverMeans(fields, data, little);
      var samples, bits :| HandsOver(fields, |data|, samples, bits);
      assert IsOtherTiff(data, little, directory, n, fields, samples, bits);
    } else if exists little, directory, n, fields, samples, bits :: IsOtherTiff(data, little, directory, n, fields, samples, bits) {
      var little, directory, n, fields, samples, bits :| IsOtherTiff(data, little, directory, n, fields, samples, bits);
      var own := OwnFields(data, little, directory, n, fields);
      SameFieldsHandOver(fields, own, |data|, samples, bits);
      HandedOverMeans(own, data, little);
    }
  }
}
