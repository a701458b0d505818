/** Decoding an encoded depth frame gives the frame back, exactly when the file is within the decoder's
    limit; so does decoding the same frame written in the other byte order. */
module DepthTiffRoundTrip {
  import opened Collections
  import opened DepthTiff
  import opened DepthTiffFile

  // Where things are in the file -------------------------------------------------------------------------

  lemma {:induction false} EntryInEntries(entries: seq<Entry>, n: nat, k: nat, little: bool)
    requires k < n <= |entries|
    ensures EntriesBytes(entries, n, little)[12 * k..12 * k + 12] == EntryBytes(entries[k], little)
  {
    var front, last := EntriesBytes(entries, n - 1, little), EntryBytes(entries[n - 1], little);
    if k < n - 1 {
      EntryInEntries(entries, n - 1, k, little);
      SliceOfFront(front, last, 12 * k, 12 * k + 12);
    } else {
      assert (front + last)[12 * k..12 * k + 12] == last;
    }
  }

  lemma SliceOfFront<T>(a: seq<T>, b: seq<T>, i: nat, j: nat)
    requires i <= j <= |a|
    ensures (a + b)[i..j] == a[i..j]
  {
  }

  lemma Slice<T>(a: seq<T>, b: seq<T>, c: seq<T>)
    ensures (a + b + c)[|a|..|a| + |b|] == b
  {
  }

  lemma SliceWithin<T>(a: seq<T>, i: nat, j: nat, k: nat, m: nat)
    requires i + m <= j <= |a| && k <= m
    ensures a[i..j][k..m] == a[i + k..i + m]
  {
    var part := a[i..j];
    forall x | 0 <= x < m - k ensures part[k..m][x] == a[i + k..i + m][x] {
      assert part[k + x] == a[i + (k + x)];
    }
  }

  /** The bytes before the directory's entries. */
  function Header(n: nat, little: bool): (r: seq<byte>)
    ensures |r| == 10
  {
    [Mark(little), Mark(little)] + Bytes(42, 2, little) + Bytes(8, 4, little) + Bytes(n, 2, little)
  }

  lemma FileParts(entries: seq<Entry>, raw: seq<byte>, little: bool)
    ensures var data := EncodedTiff(entries, raw, little);
            && |data| == 14 + 12 * |entries| + |raw|
            && data == Header(|entries|, little) + EntriesBytes(entries, |entries|, little) + (Bytes(0, 4, little) + raw)
            && data[..10] == Header(|entries|, little)
            && data[10..10 + 12 * |entries|] == EntriesBytes(entries, |entries|, little)
            && data[14 + 12 * |entries|..] == raw
  {
    var header, body := Header(|entries|, little), EntriesBytes(entries, |entries|, little);
    var data := EncodedTiff(entries, raw, little);
    assert data == header + body + (Bytes(0, 4, little) + raw);
    Slice(header, body, Bytes(0, 4, little) + raw);
  }

  function Magic(little: bool): seq<byte> {
    if little then LITTLE_MAGIC else BIG_MAGIC
  }

  lemma HeaderParts(n: nat, little: bool)
    ensures var h := Header(n, little); h[..4] == Magic(little) && h[4..8] == Bytes(8, 4, little) && h[8..10] == Bytes(n, 2, little)
  {
    assert Bytes(42 / 256, 1, little) == [0] by {
      assert Bytes(0, 0, little) == [];
    }
    assert Bytes(42, 2, little) == if little then [42, 0] else [0, 42];
  }

  /** What the header says: one directory at offset 8 with the given number of entries. */
  lemma HeaderSays(entries: seq<Entry>, raw: seq<byte>, little: bool)
    requires |entries| < 65536
    ensures var data := EncodedTiff(entries, raw, little);
            && |data| >= 10 && data[..4] == Magic(little)
            && Read(data, 4, 4, little) == Some(8) && Read(data, 8, 2, little) == Some(|entries|)
  {
    var data, header := EncodedTiff(entries, raw, little), Header(|entries|, little);
    FileParts(entries, raw, little);
    HeaderParts(|entries|, little);
    SliceWithin(data, 0, 10, 0, 4);
    SliceWithin(data, 0, 10, 4, 8);
    SliceWithin(data, 0, 10, 8, 10);
    assert data[0..10] == data[..10] && data[0..4] == data[..4] && header[0..4] == header[..4];
    Powers();
    NumberOfBytes(data, 4, 8, 4, little);
    NumberOfBytes(data, 8, |entries|, 2, little);
  }

  lemma Powers()
    ensures Power(2) == 65536 && Power(4) == 0x1_0000_0000
  {
    assert Power(1) == 256;
    assert Power(3) == 256 * 65536;
  }

  lemma EntryInFile(entries: seq<Entry>, raw: seq<byte>, k: nat, little: bool)
    requires k < |entries|
    ensures var data := EncodedTiff(entries, raw, little);
            10 + 12 * k + 12 <= |data| && data[10 + 12 * k..10 + 12 * k + 12] == EntryBytes(entries[k], little)
  {
    FileParts(entries, raw, little);
    EntryInEntries(entries, |entries|, k, little);
    SliceWithin(EncodedTiff(entries, raw, little), 10, 10 + 12 * |entries|, 12 * k, 12 * k + 12);
  }

  // Entries ----------------------------------------------------------------------------------------------

  /** A single value, which the entry itself holds. */
  predicate IsInline(e: Entry) {
    && IsKnown(e.tag) && e.tag < 65536 && e.count == 1
    && ((e.fieldType == 3 && e.value < 65536) || (e.fieldType == 4 && e.value <= MAX_UINT32))
  }

  lemma Quarters<T>(a: seq<T>, b: seq<T>, c: seq<T>, d: seq<T>)
    requires |a| == 2 && |b| == 2 && |c| == 4 && |d| == 4
    ensures var all := a + b + c + d; all[0..2] == a && all[2..4] == b && all[4..8] == c && all[8..12] == d
  {
  }

  lemma EntryParts(data: seq<byte>, at: nat, e: Entry, little: bool)
    requires at + 12 <= |data| && data[at..at + 12] == EntryBytes(e, little)
    ensures data[at..at + 2] == Bytes(e.tag, 2, little) && data[at + 2..at + 4] == Bytes(e.fieldType, 2, little)
    ensures data[at + 4..at + 8] == Bytes(e.count, 4, little) && data[at + 8..at + 12] == ValueBytes(e, little)
  {
    var a, b, c, d := Bytes(e.tag, 2, little), Bytes(e.fieldType, 2, little), Bytes(e.count, 4, little), ValueBytes(e, little);
    Quarters(a, b, c, d);
    assert EntryBytes(e, little) == a + b + c + d;
    SliceWithin(data, at, at + 12, 0, 2);
    SliceWithin(data, at, at + 12, 2, 4);
    SliceWithin(data, at, at + 12, 4, 8);
    SliceWithin(data, at, at + 12, 8, 12);
  }

  lemma EntryNumbers(data: seq<byte>, at: nat, e: Entry, little: bool)
    requires at + 12 <= |data| && data[at..at + 12] == EntryBytes(e, little) && IsInline(e)
    ensures Number(data, at, 2, little) == e.tag && Number(data, at + 2, 2, little) == e.fieldType
    ensures Number(data, at + 4, 4, little) == 1
    ensures Number(data, at + 8, ElementSize(e.fieldType), little) == e.value
  {
    EntryParts(data, at, e, little);
    Powers();
    NumberOfBytes(data, at, e.tag, 2, little);
    NumberOfBytes(data, at + 2, e.fieldType, 2, little);
    NumberOfBytes(data, at + 4, e.count, 4, little);
    ValueNumber(data, at + 8, e, little);
  }

  lemma ValueNumber(data: seq<byte>, at: nat, e: Entry, little: bool)
    requires at + 4 <= |data| && data[at..at + 4] == ValueBytes(e, little) && IsInline(e)
    ensures Number(data, at, ElementSize(e.fieldType), little) == e.value
  {
    Powers();
    if e.fieldType == 3 {
      BytesPrefix(e.value, 2, 4);
      SliceWithin(data, at, at + 4, 0, 2);
      assert data[at..at + 4][0..2] == ValueBytes(e, little)[..2] == Bytes(e.value, 2, little);
      NumberOfBytes(data, at, e.value, 2, little);
    } else {
      NumberOfBytes(data, at, e.value, 4, little);
    }
  }

  /** An inline entry is read as its value. */
  lemma EntryRead(data: seq<byte>, at: nat, e: Entry, little: bool)
    requires at + 12 <= |data| && data[at..at + 12] == EntryBytes(e, little) && IsInline(e)
    ensures Number(data, at, 2, little) == e.tag && EntryValues(data, at, little) == Some([e.value])
  {
    EntryNumbers(data, at, e, little);
    var size := ElementSize(e.fieldType);
    assert Values(data, at + 8, 0, size, little) == [];
    assert Values(data, at + 8, 1, size, little) == [Number(data, at + 8, size, little)];
  }

  function FieldsOf(entries: seq<Entry>, n: nat): Fields
    requires n <= |entries|
  {
    if n == 0 then map[] else FieldsOf(entries, n - 1)[entries[n - 1].tag := [entries[n - 1].value]]
  }

  predicate TagBelow(entries: seq<Entry>, i: nat)
    requires i + 1 < |entries|
  {
    entries[i].tag < entries[i + 1].tag
  }

  /** As the format asks for: entries in ascending order of their tags. */
  ghost predicate Ascending(entries: seq<Entry>) {
    forall i: nat :: i + 1 < |entries| ==> TagBelow(entries, i)
  }

  lemma {:induction false} TagsDiffer(entries: seq<Entry>, i: nat, j: nat)
    requires Ascending(entries) && i < j < |entries|
    ensures entries[i].tag < entries[j].tag
  {
    assert TagBelow(entries, j - 1);
    if i < j - 1 {
      TagsDiffer(entries, i, j - 1);
    }
  }

  lemma {:induction false} FieldsHave(entries: seq<Entry>, n: nat, k: nat)
    requires k < n <= |entries| && Ascending(entries)
    ensures entries[k].tag in FieldsOf(entries, n) && FieldsOf(entries, n)[entries[k].tag] == [entries[k].value]
  {
    if k < n - 1 {
      FieldsHave(entries, n - 1, k);
      TagsDiffer(entries, k, n - 1);
    }
  }

  lemma {:induction false} FieldsLack(entries: seq<Entry>, n: nat, tag: nat)
    requires n <= |entries| && forall i :: 0 <= i < n ==> entries[i].tag != tag
    ensures tag !in FieldsOf(entries, n)
  {
    if n > 0 {
      FieldsLack(entries, n - 1, tag);
    }
  }

  ghost predicate AllInline(entries: seq<Entry>) {
    forall i :: 0 <= i < |entries| ==> IsInline(entries[i])
  }

  ghost predicate EntryAt(data: seq<byte>, entries: seq<Entry>, k: int, little: bool) {
    0 <= k < |entries| && 10 + 12 * k + 12 <= |data| && data[10 + 12 * k..10 + 12 * k + 12] == EntryBytes(entries[k], little)
  }

  /** One entry more. */
  lemma NextEntryRead(data: seq<byte>, entries: seq<Entry>, n: nat, at: nat, little: bool)
    requires n < |entries| && Ascending(entries) && IsInline(entries[n]) && at == 10 + 12 * n
    requires at + 12 <= |data| && data[at..at + 12] == EntryBytes(entries[n], little)
    ensures WithEntry(data, at, little, FieldsOf(entries, n)) == Some(FieldsOf(entries, n + 1))
  {
    EntryRead(data, at, entries[n], little);
    forall i | 0 <= i < n ensures entries[i].tag != entries[n].tag {
      TagsDiffer(entries, i, n);
    }
    FieldsLack(entries, n, entries[n].tag);
  }

  lemma NextDirectory(data: seq<byte>, entries: seq<Entry>, n: nat, little: bool)
    requires n < |entries| && Ascending(entries) && IsInline(entries[n]) && EntryAt(data, entries, n, little)
    requires Directory(data, 8, n, little) == Some(FieldsOf(entries, n))
    ensures Directory(data, 8, n + 1, little) == Some(FieldsOf(entries, n + 1))
  {
    var at := 10 + 12 * n;
    NextEntryRead(data, entries, n, at, little);
    DirectorySnoc(data, 8, n, little, FieldsOf(entries, n), at);
  }

  /** A directory of inline entries is read as its entries. */
  lemma {:induction false} DirectoryRead(data: seq<byte>, entries: seq<Entry>, n: nat, little: bool)
    requires n <= |entries| && Ascending(entries) && AllInline(entries) && 10 + 12 * n <= |data|
    requires forall k :: 0 <= k < |entries| ==> EntryAt(data, entries, k, little)
    ensures Directory(data, 8, n, little) == Some(FieldsOf(entries, n))
  {
    if n > 0 {
      DirectoryRead(data, entries, n - 1, little);
      NextDirectory(data, entries, n - 1, little);
    }
  }

  lemma FileDirectoryRead(entries: seq<Entry>, raw: seq<byte>, little: bool)
    requires Ascending(entries) && AllInline(entries)
    ensures var data := EncodedTiff(entries, raw, little);
            10 + 12 * |entries| <= |data| && Directory(data, 8, |entries|, little) == Some(FieldsOf(entries, |entries|))
  {
    FileParts(entries, raw, little);
    forall k | 0 <= k < |entries| ensures EntryAt(EncodedTiff(entries, raw, little), entries, k, little) {
      EntryInFile(entries, raw, k, little);
    }
    DirectoryRead(EncodedTiff(entries, raw, little), entries, |entries|, little);
  }

  // Pixels -----------------------------------------------------------------------------------------------

  /** The bytes of a frame's samples in a file of the given byte order. */
  function InFile(raw: seq<byte>, isFloat: bool, little: bool): (r: seq<byte>)
    requires |raw| % SampleBytes(isFloat) == 0
    ensures |r| == |raw|
  {
    var bytes := SampleBytes(isFloat);
    if little then raw else seq(|raw|, i requires 0 <= i < |raw| => raw[i - i % bytes + (bytes - 1 - i % bytes)])
  }

  lemma StripIsRaw(data: seq<byte>, offset: nat, raw: seq<byte>, samples: nat, isFloat: bool, little: bool)
    requires |raw| == Times(samples, SampleBytes(isFloat)) == samples * SampleBytes(isFloat) && offset + |raw| == |data|
    requires data[offset..] == InFile(raw, isFloat, little)
    ensures Strip(data, offset, samples, SampleBytes(isFloat), little) == raw
  {
    var bytes := SampleBytes(isFloat);
    forall k | 0 <= k < |raw| ensures Strip(data, offset, samples, bytes, little)[k] == raw[k] {
      SampleByte(data, offset, raw, samples, isFloat, little, k / bytes, k % bytes);
    }
  }

  lemma SampleByte(data: seq<byte>, offset: nat, raw: seq<byte>, samples: nat, isFloat: bool, little: bool, j: nat, b: nat)
    requires |raw| == Times(samples, SampleBytes(isFloat)) && |raw| % SampleBytes(isFloat) == 0 && offset + |raw| == |data|
    requires data[offset..] == InFile(raw, isFloat, little) && j < samples && b < SampleBytes(isFloat)
    ensures j * SampleBytes(isFloat) + b < |raw|
    ensures Strip(data, offset, samples, SampleBytes(isFloat), little)[j * SampleBytes(isFloat) + b]
            == raw[j * SampleBytes(isFloat) + b]
  {
    TimesIs(j, SampleBytes(isFloat));
    StripAt(data, offset, samples, SampleBytes(isFloat), little, j, b);
    ByteInFile(data, offset, raw, isFloat, little, j, b);
  }

  lemma ByteInFile(data: seq<byte>, offset: nat, raw: seq<byte>, isFloat: bool, little: bool, j: nat, b: nat)
    requires |raw| % SampleBytes(isFloat) == 0 && offset + |raw| == |data| && data[offset..] == InFile(raw, isFloat, little)
    requires b < SampleBytes(isFloat) && Times(j, SampleBytes(isFloat)) + SampleBytes(isFloat) <= |raw|
    ensures data[offset + Times(j, SampleBytes(isFloat)) + if little then b else SampleBytes(isFloat) - b - 1]
            == raw[Times(j, SampleBytes(isFloat)) + b]
  {
    var bytes := SampleBytes(isFloat);
    TimesIs(j, bytes);
    var at := j * bytes + if little then b else bytes - b - 1;
    assert at % bytes == if little then b else bytes - b - 1;
    assert data[offset + at] == data[offset..][at];
  }

  /** The fields of a depth frame's file. */
  lemma DepthFields(width: nat, height: nat, isFloat: bool)
    requires width <= MAX_UINT32 && height <= MAX_UINT32 && width * height * SampleBytes(isFloat) <= MAX_UINT32
    ensures Ascending(DepthEntries(width, height, isFloat)) && AllInline(DepthEntries(width, height, isFloat))
  {
    var entries := DepthEntries(width, height, isFloat);
    forall i: nat | i + 1 < |entries| ensures TagBelow(entries, i) {
    }
  }

  ghost predicate Holds(fields: Fields, tag: nat, value: nat) {
    tag in fields && fields[tag] == [value]
  }

  lemma DepthFieldValues(width: nat, height: nat, isFloat: bool)
    requires Ascending(DepthEntries(width, height, isFloat))
    ensures var fields := FieldsOf(DepthEntries(width, height, isFloat), ENTRY_COUNT);
            && Holds(fields, 256, width) && Holds(fields, 257, height) && Holds(fields, 258, SampleBytes(isFloat) * 8)
            && Holds(fields, 259, 1) && Holds(fields, 262, 1) && Holds(fields, 273, PIXEL_OFFSET) && Holds(fields, 277, 1)
            && Holds(fields, 278, height) && Holds(fields, 279, width * height * SampleBytes(isFloat))
            && Holds(fields, 284, 1) && Holds(fields, 339, if isFloat then 3 else 1)
            && 274 !in fields && 338 !in fields
  {
    var entries := DepthEntries(width, height, isFloat);
    forall k: nat | k < ENTRY_COUNT
      ensures Holds(FieldsOf(entries, ENTRY_COUNT), entries[k].tag, entries[k].value)
    {
      FieldsHave(entries, ENTRY_COUNT, k);
    }
    assert entries[0].tag == 256 && entries[1].tag == 257 && entries[2].tag == 258 && entries[3].tag == 259;
    assert entries[4].tag == 262 && entries[5].tag == 273 && entries[6].tag == 277 && entries[7].tag == 278;
    assert entries[8].tag == 279 && entries[9].tag == 284 && entries[10].tag == 339;
    FieldsLack(entries, ENTRY_COUNT, 274);
    FieldsLack(entries, ENTRY_COUNT, 338);
  }

  /** With these fields, the image is the single strip that follows the directory. */
  lemma InterpretedDepth(fields: Fields, data: seq<byte>, raw: seq<byte>, width: nat, height: nat, isFloat: bool, little: bool)
    requires width > 0 && height > 0 && |raw| == width * height * SampleBytes(isFloat) && |raw| % SampleBytes(isFloat) == 0
    requires |data| == PIXEL_OFFSET + |raw| && data[PIXEL_OFFSET..] == InFile(raw, isFloat, little) && |raw| <= MAX_IMAGE_BYTES
    requires Holds(fields, 256, width) && Holds(fields, 257, height) && Holds(fields, 258, SampleBytes(isFloat) * 8)
    requires Holds(fields, 259, 1) && Holds(fields, 262, 1) && Holds(fields, 273, PIXEL_OFFSET) && Holds(fields, 277, 1)
    requires Holds(fields, 278, height) && Holds(fields, 279, |raw|)
    requires Holds(fields, 284, 1) && Holds(fields, 339, if isFloat then 3 else 1)
    requires 274 !in fields && 338 !in fields
    ensures Interpreted(fields, data, little) == Image(raw, width, height, isFloat)
  {
    var bytes := SampleBytes(isFloat);
    assert Uniform(fields, 258, 1, 1) == Some(bytes * 8) && Uniform(fields, 339, 1, 1) == Some(if isFloat then 3 else 1);
    assert StripsInRange(|data|, [PIXEL_OFFSET], [|raw|]);
    LayoutDepth(fields, data, raw, width, height, isFloat, little);
  }

  lemma OneStrip(height: nat)
    requires height > 0
    ensures (height - 1) / height + 1 == 1 && StripRows(height, height, 0) == height
  {
  }

  lemma SamplesOfFrame(width: nat, height: nat, bytes: nat)
    ensures Times(height * width, bytes) == width * height * bytes && height * width * bytes == width * height * bytes
  {
    TimesIs(height * width, bytes);
  }

  lemma LayoutDepth(fields: Fields, data: seq<byte>, raw: seq<byte>, width: nat, height: nat, isFloat: bool, little: bool)
    requires width > 0 && height > 0 && |raw| == width * height * SampleBytes(isFloat) && |raw| % SampleBytes(isFloat) == 0
    requires |data| == PIXEL_OFFSET + |raw| && data[PIXEL_OFFSET..] == InFile(raw, isFloat, little) && |raw| <= MAX_IMAGE_BYTES
    requires Holds(fields, 256, width) && Holds(fields, 257, height) && Holds(fields, 278, height)
    requires Holds(fields, 273, PIXEL_OFFSET) && Holds(fields, 279, |raw|)
    ensures Layout(fields, data, little, SampleBytes(isFloat) * 8, if isFloat then 3 else 1) == Image(raw, width, height, isFloat)
  {
    var bytes := SampleBytes(isFloat);
    OneStrip(height);
    SamplesOfFrame(width, height, bytes);
    GoodSizeFits(width, height, bytes);
    StripIsRaw(data, PIXEL_OFFSET, raw, height * width, isFloat, little);
    OneStripRead(data, raw, width, height, bytes, little);
  }

  lemma OneStripRead(data: seq<byte>, raw: seq<byte>, width: nat, height: nat, bytes: nat, little: bool)
    requires |raw| == Times(height * width, bytes) && |data| == PIXEL_OFFSET + |raw| && StripRows(height, height, 0) == height
    requires Strip(data, PIXEL_OFFSET, height * width, bytes, little) == raw
    ensures Strips(data, [PIXEL_OFFSET], [|raw|], 1, StripSamples(width, height, height, 1), bytes, little) == Some(raw)
  {
    var offsets, counts := [PIXEL_OFFSET], [|raw|];
    var samples := StripSamples(width, height, height, 1);
    assert samples[0] == height * width && StripInRange(|data|, offsets, counts, 0);
    assert Strips(data, offsets, counts, 0, samples, bytes, little) == Some([]);
    assert [] + raw == raw;
  }

  /** A frame with its dimensions and sample type. */
  ghost predicate IsFrame(raw: seq<byte>, width: nat, height: nat, isFloat: bool) {
    width > 0 && height > 0 && |raw| == width * height * SampleBytes(isFloat)
  }

  /** The file of a frame in either byte order: header, directory and samples are all written in it. */
  function FileOf(raw: seq<byte>, width: nat, height: nat, isFloat: bool, little: bool): seq<byte>
    requires |raw| % SampleBytes(isFloat) == 0
  {
    EncodedTiff(DepthEntries(width, height, isFloat), InFile(raw, isFloat, little), little)
  }

  lemma DimensionsFit(width: nat, height: nat, bytes: nat)
    requires width > 0 && height > 0 && bytes > 0
    ensures width <= width * height * bytes && height <= width * height * bytes
  {
    ProductAtLeast(width, height);
    ProductAtLeast(height, width);
    ProductAtLeast(width * height, bytes);
  }

  lemma ProductAtLeast(a: nat, b: nat)
    requires b > 0
    ensures a * b >= a && a * b == b * a
  {
  }

  lemma WholeSamples(raw: seq<byte>, width: nat, height: nat, isFloat: bool)
    requires IsFrame(raw, width, height, isFloat)
    ensures |raw| % SampleBytes(isFloat) == 0
  {
    var pixels := width * height;
    assert |raw| == pixels * SampleBytes(isFloat);
  }

  /** What EncodeDepthTiff writes is the little-endian file. */
  lemma EncodedIsLittle(raw: seq<byte>, width: nat, height: nat, isFloat: bool)
    requires |raw| % SampleBytes(isFloat) == 0
    ensures FileOf(raw, width, height, isFloat, true) == EncodedTiff(DepthEntries(width, height, isFloat), raw, true)
  {
  }

  /** Decoding the file of a frame gives the same pixels, dimensions and sample type in either byte order,
      if and only if the frame is at most 64 MiB less the 146 bytes of header and directory. */
  lemma DepthRoundTrip(raw: seq<byte>, width: nat, height: nat, isFloat: bool, little: bool)
    requires IsFrame(raw, width, height, isFloat)
    ensures |raw| % SampleBytes(isFloat) == 0
    ensures DecodedImage(FileOf(raw, width, height, isFloat, little)) ==
            if |raw| + PIXEL_OFFSET <= MAX_IMAGE_BYTES then Image(raw, width, height, isFloat) else Invalid
  {
    WholeSamples(raw, width, height, isFloat);
    var entries, written := DepthEntries(width, height, isFloat), InFile(raw, isFloat, little);
    var data := EncodedTiff(entries, written, little);
    FileParts(entries, written, little);
    if |data| <= MAX_IMAGE_BYTES {
      DimensionsFit(width, height, SampleBytes(isFloat));
      DepthFields(width, height, isFloat);
      HeaderSays(entries, written, little);
      FileDirectoryRead(entries, written, little);
      DepthFieldValues(width, height, isFloat);
      InterpretedDepth(FieldsOf(entries, ENTRY_COUNT), data, raw, width, height, isFloat, little);
      Recognized(data, little);
    }
  }

  lemma Recognized(data: seq<byte>, little: bool)
    requires |data| >= 8 && data[..4] == Magic(little) && |data| <= MAX_IMAGE_BYTES
    ensures DecodedImage(data) == DecodedTiff(data) && (data[0] == 'I' as int as byte) == little
  {
    assert data[0] == data[..4][0] == Mark(little);
    assert data[..8][0] == Mark(little);
  }

  /** A frame whose pixels alone are within the limit need not survive: 64 MiB of uint16 samples are
      encoded, but not decoded again. */
  lemma LargestFrameIsLost(raw: seq<byte>)
    requires |raw| == MAX_IMAGE_BYTES
    ensures IsFrame(raw, 8192, 4096, false) && CanEncode(8192, 4096, false)
    ensures DecodedImage(FileOf(raw, 8192, 4096, false, true)) == Invalid
  {
    DepthRoundTrip(raw, 8192, 4096, false, true);
  }
}
