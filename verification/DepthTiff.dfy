/** Uncompressed depth images as TIFF files (TIFF 6.0, sections 2 and 19): what a file means, and the
    file that is written for a frame. */
module DepthTiff {
  import opened Collections
  newtype byte = x: int | 0 <= x < 256

  const MAX_IMAGE_BYTES: nat := 64 * 1024 * 1024
  const MAX_UINT32: nat := 0xFFFF_FFFF

  // Numbers in bytes -----------------------------------------------------------------------------------

  /** The n bytes at `offset` as an unsigned number. */
  function Number(data: seq<byte>, offset: nat, n: nat, little: bool): nat
    requires offset + n <= |data|
    decreases n
  {
    if n == 0 then 0
    else if little then data[offset] as nat + 256 * Number(data, offset + 1, n - 1, little)
    else data[offset + n - 1] as nat + 256 * Number(data, offset, n - 1, little)
  }

  function Read(data: seq<byte>, offset: nat, n: nat, little: bool): Option<nat> {
    if offset > |data| || n > |data| - offset then None else Some(Number(data, offset, n, little))
  }

  /** The n low bytes of a number, the least significant one first in a little-endian file and last in a
      big-endian one. */
  function Bytes(value: nat, n: nat, little: bool): (r: seq<byte>)
    ensures |r| == n
  {
    if n == 0 then []
    else if little then [(value % 256) as byte] + Bytes(value / 256, n - 1, little)
    else Bytes(value / 256, n - 1, little) + [(value % 256) as byte]
  }

  function Power(n: nat): (r: nat)
    ensures r > 0
  {
    if n == 0 then 1 else 256 * Power(n - 1)
  }

  lemma {:induction false} NumberOfBytes(data: seq<byte>, offset: nat, value: nat, n: nat, little: bool)
    requires offset + n <= |data| && data[offset..offset + n] == Bytes(value, n, little) && value < Power(n)
    ensures Number(data, offset, n, little) == value
    decreases n
  {
    if n > 0 {
      var rest := Bytes(value / 256, n - 1, little);
      if little {
        FrontOff(data, offset, n, (value % 256) as byte, rest);
        NumberOfBytes(data, offset + 1, value / 256, n - 1, little);
      } else {
        BackOff(data, offset, n, (value % 256) as byte, rest);
        NumberOfBytes(data, offset, value / 256, n - 1, little);
      }
    }
  }

  lemma FrontOff(data: seq<byte>, offset: nat, n: nat, first: byte, rest: seq<byte>)
    requires 0 < n && offset + n <= |data| && data[offset..offset + n] == [first] + rest
    ensures data[offset] == first && data[offset + 1..offset + 1 + (n - 1)] == rest
  {
    assert data[offset..offset + n][0] == first;
    assert ([first] + rest)[1..] == rest;
    assert data[offset + 1..offset + n] == data[offset..offset + n][1..];
  }

  lemma BackOff(data: seq<byte>, offset: nat, n: nat, last: byte, rest: seq<byte>)
    requires 0 < n && offset + n <= |data| && data[offset..offset + n] == rest + [last]
    ensures data[offset + n - 1] == last && data[offset..offset + (n - 1)] == rest
  {
    assert data[offset..offset + n][n - 1] == last;
    assert (rest + [last])[..n - 1] == rest;
    assert data[offset..offset + (n - 1)] == data[offset..offset + n][..n - 1];
  }

  /** Reading fewer bytes of a small enough number loses nothing. */
  lemma {:induction false} BytesPrefix(value: nat, m: nat, n: nat)
    requires m <= n
    ensures Bytes(value, n, true)[..m] == Bytes(value, m, true)
  {
    if m > 0 {
      BytesPrefix(value / 256, m - 1, n - 1);
      var r := Bytes(value / 256, n - 1, true);
      assert Bytes(value, n, true)[..m] == [(value % 256) as byte] + r[..m - 1];
    }
  }

  // Directory ------------------------------------------------------------------------------------------

  /** Values by tag. */
  type Fields = map<nat, seq<nat>>

  predicate IsKnown(tag: nat) {
    tag == 256 || tag == 257 || tag == 258 || tag == 259 || tag == 262 || tag == 273 || tag == 274 || tag == 277 ||
    tag == 278 || tag == 279 || tag == 284 || tag == 338 || tag == 339
  }

  function MaxElements(tag: nat, size: nat): nat {
    if tag == 273 || tag == 279 then size / 4
    else if tag == 258 || tag == 338 || tag == 339 then 4
    else 1
  }

  function ElementSize(fieldType: nat): nat {
    if fieldType == 3 then 2 else if fieldType == 4 then 4 else 0
  }

  function Values(data: seq<byte>, offset: nat, elements: nat, size: nat, little: bool): (r: seq<nat>)
    requires offset + elements * size <= |data|
    ensures |r| == elements
  {
    if elements == 0 then []
    else
      assert (elements - 1) * size + size == elements * size;
      Values(data, offset, elements - 1, size, little) + [Number(data, offset + (elements - 1) * size, size, little)]
  }

  /** The values of an entry with these numbers, None when it is malformed. */
  function ValuesOf(data: seq<byte>, tag: nat, fieldType: nat, elements: nat, inline: nat, pointer: nat, little: bool)
    : Option<seq<nat>>
  {
    var elementSize := ElementSize(fieldType);
    if elementSize == 0 || elements == 0 || elements > MaxElements(tag, |data|) || elements > |data| / elementSize then None
    else
      var bytes := elements * elementSize;
      var offset := if bytes <= 4 then inline else pointer;
      if offset > |data| || bytes > |data| - offset then None
      else Some(Values(data, offset, elements, elementSize, little))
  }

  /** The values of a 12-byte entry. */
  function EntryValues(data: seq<byte>, entry: nat, little: bool): Option<seq<nat>>
    requires entry + 12 <= |data|
  {
    ValuesOf(data, Number(data, entry, 2, little), Number(data, entry + 2, 2, little), Number(data, entry + 4, 4, little),
             entry + 8, Number(data, entry + 8, 4, little), little)
  }

  /** The fields of the first n entries; None when one is malformed or repeats a tag. */
  function Directory(data: seq<byte>, directory: nat, n: nat, little: bool): Option<Fields>
    requires directory + 2 + 12 * n <= |data|
  {
    if n == 0 then Some(map[])
    else
      match Directory(data, directory, n - 1, little)
      case None => None
      case Some(fields) => WithEntry(data, directory + 2 + 12 * (n - 1), little, fields)
  }

  function WithEntry(data: seq<byte>, entry: nat, little: bool, fields: Fields): Option<Fields>
    requires entry + 12 <= |data|
  {
    var tag := Number(data, entry, 2, little);
    if !IsKnown(tag) then Some(fields)
    else
      match EntryValues(data, entry, little)
      case None => None
      case Some(values) => if tag in fields then None else Some(fields[tag := values])
  }

  /** Entries that are handed on to another decoder: all but the sample format and extra samples. */
  function DecoderEntries(data: seq<byte>, directory: nat, n: nat, little: bool): seq<nat>
    requires directory + 2 + 12 * n <= |data|
  {
    if n == 0 then []
    else
      var entry := directory + 2 + 12 * (n - 1);
      var tag := Number(data, entry, 2, little);
      DecoderEntries(data, directory, n - 1, little) + if tag == 338 || tag == 339 then [] else [entry]
  }

  lemma DirectorySnoc(data: seq<byte>, directory: nat, i: nat, little: bool, fields: Fields, entry: nat)
    requires entry == directory + 2 + 12 * i && entry + 12 <= |data| && Directory(data, directory, i, little) == Some(fields)
    ensures Directory(data, directory, i + 1, little) == WithEntry(data, entry, little, fields)
    ensures DecoderEntries(data, directory, i + 1, little) ==
            DecoderEntries(data, directory, i, little)
            + if Number(data, entry, 2, little) == 338 || Number(data, entry, 2, little) == 339 then [] else [entry]
  {
  }

  // Image ----------------------------------------------------------------------------------------------

  /** A depth image, an image for another decoder, or an error. */
  datatype Decoded = Image(pixels: seq<byte>, width: nat, height: nat, isFloat: bool) | Other | Invalid

  function Scalar(fields: Fields, tag: nat, fallback: nat): nat {
    if tag !in fields then fallback else if |fields[tag]| == 1 then fields[tag][0] else 0
  }

  /** The common value of a per-channel field. */
  function Uniform(fields: Fields, tag: nat, fallback: nat, samples: nat): Option<nat> {
    if tag !in fields then Some(fallback)
    else if |fields[tag]| == 0 || (|fields[tag]| != 1 && |fields[tag]| != samples) then None
    else if forall i :: 0 <= i < |fields[tag]| ==> fields[tag][i] == fields[tag][0] then Some(fields[tag][0])
    else None
  }

  function List(fields: Fields, tag: nat): seq<nat> {
    if tag in fields then fields[tag] else []
  }

  predicate SupportedSamples(samples: nat, bits: nat, format: nat) {
    && 0 < samples <= 4 && bits > 0
    && if format == 1 then bits <= 16 else format == 3 && bits == 32 && samples == 1
  }

  predicate BadExtraSamples(fields: Fields, samples: nat) {
    338 in fields && (samples != 4 || Scalar(fields, 262, 1) != 2 || |fields[338]| != 1 || fields[338][0] != 2)
  }

  predicate StripInRange(size: nat, offsets: seq<nat>, counts: seq<nat>, i: nat)
    requires |offsets| == |counts| && i < |offsets|
  {
    offsets[i] <= size && counts[i] <= size - offsets[i]
  }

  predicate StripsInRange(size: nat, offsets: seq<nat>, counts: seq<nat>)
    requires |offsets| == |counts|
  {
    forall i :: 0 <= i < |offsets| ==> StripInRange(size, offsets, counts, i)
  }

  /** Single-channel uint16 or float32 samples. */
  predicate IsDepth(samples: nat, bits: nat, format: nat) {
    samples == 1 && ((bits == 16 && format == 1) || (bits == 32 && format == 3))
  }

  predicate GoodSize(width: nat, height: nat, bytes: nat) {
    && bytes > 0 && width > 0 && height > 0 && width <= MAX_IMAGE_BYTES / bytes
    && (width * bytes > 0 ==> height <= MAX_IMAGE_BYTES / (width * bytes))
  }

  /** Rows of strip i. */
  function StripRows(height: nat, rowsPerStrip: nat, i: nat): nat {
    var before := i * rowsPerStrip;
    if before >= height then 0 else if rowsPerStrip < height - before then rowsPerStrip else height - before
  }

  /** The bytes of one sample, least significant first. */
  function Sample(data: seq<byte>, offset: nat, bytes: nat, little: bool): (r: seq<byte>)
    requires offset + bytes <= |data|
    ensures |r| == bytes
  {
    seq(bytes, b requires 0 <= b < bytes => data[offset + if little then b else bytes - b - 1])
  }

  /** n * size, counted up. */
  function Times(n: nat, size: nat): nat {
    if n == 0 then 0 else Times(n - 1, size) + size
  }

  lemma {:induction false} TimesIs(n: nat, size: nat)
    ensures Times(n, size) == n * size
  {
    if n > 0 {
      TimesIs(n - 1, size);
      assert n * size == (n - 1) * size + size;
    }
  }

  function Strip(data: seq<byte>, offset: nat, samples: nat, bytes: nat, little: bool): (r: seq<byte>)
    requires offset + Times(samples, bytes) <= |data|
    ensures |r| == Times(samples, bytes)
  {
    if samples == 0 then []
    else
      Strip(data, offset, samples - 1, bytes, little) + Sample(data, offset + Times(samples - 1, bytes), bytes, little)
  }

  lemma {:induction false} TimesGrows(j: nat, n: nat, size: nat)
    requires j <= n
    ensures Times(j, size) <= Times(n, size)
  {
    if j < n {
      TimesGrows(j, n - 1, size);
    }
  }

  /** Byte b of sample j. */
  lemma {:induction false} StripAt(data: seq<byte>, offset: nat, samples: nat, bytes: nat, little: bool, j: nat, b: nat)
    requires j < samples && b < bytes && offset + Times(samples, bytes) <= |data|
    ensures Times(j, bytes) + bytes <= Times(samples, bytes)
    ensures Strip(data, offset, samples, bytes, little)[Times(j, bytes) + b]
            == data[offset + Times(j, bytes) + if little then b else bytes - b - 1]
  {
    TimesGrows(j + 1, samples, bytes);
    if j < samples - 1 {
      StripAt(data, offset, samples - 1, bytes, little, j, b);
    }
  }

  /** Samples of each of n strips. */
  function StripSamples(width: nat, height: nat, rowsPerStrip: nat, n: nat): (r: seq<nat>)
    ensures |r| == n && forall i :: 0 <= i < n ==> r[i] == StripRows(height, rowsPerStrip, i) * width
  {
    seq(n, i requires 0 <= i < n => StripRows(height, rowsPerStrip, i) * width)
  }

  /** Pixels of the first n strips; None when a strip has not the size its samples need. */
  function Strips(data: seq<byte>, offsets: seq<nat>, counts: seq<nat>, n: nat, samples: seq<nat>, bytes: nat, little: bool)
    : Option<seq<byte>>
    requires n <= |offsets| == |counts| == |samples|
  {
    if n == 0 then Some([])
    else
      match Strips(data, offsets, counts, n - 1, samples, bytes, little)
      case None => None
      case Some(pixels) =>
        if counts[n - 1] != Times(samples[n - 1], bytes) || !StripInRange(|data|, offsets, counts, n - 1) then None
        else Some(pixels + Strip(data, offsets[n - 1], samples[n - 1], bytes, little))
  }

  function Layout(fields: Fields, data: seq<byte>, little: bool, bits: nat, format: nat): Decoded
    requires |List(fields, 273)| == |List(fields, 279)| && bits >= 8
  {
    var offsets, counts := List(fields, 273), List(fields, 279);
    var width, height, bytes := Scalar(fields, 256, 0), Scalar(fields, 257, 0), bits / 8;
    var rowsPerStrip := Scalar(fields, 278, height);
    if !GoodSize(width, height, bytes) then Invalid
    else if rowsPerStrip == 0 || |offsets| != (height - 1) / rowsPerStrip + 1 then Invalid
    else
      match Strips(data, offsets, counts, |offsets|, StripSamples(width, height, rowsPerStrip, |offsets|), bytes, little)
      case None => Invalid
      case Some(pixels) => Image(pixels, width, height, format == 3)
  }

  function Interpreted(fields: Fields, data: seq<byte>, little: bool): Decoded {
    var samples := Scalar(fields, 277, 1);
    var bits, format := Uniform(fields, 258, 1, samples), Uniform(fields, 339, 1, samples);
    var offsets, counts := List(fields, 273), List(fields, 279);
    if bits.None? || format.None? || !SupportedSamples(samples, bits.value, format.value) then Invalid
    else if BadExtraSamples(fields, samples) then Invalid
    else if |offsets| != |counts| || !StripsInRange(|data|, offsets, counts) then Invalid
    else if !IsDepth(samples, bits.value, format.value) then Other
    else if Scalar(fields, 259, 1) != 1 then if format.value == 3 then Invalid else Other
    else if Scalar(fields, 262, 1) != 1 || Scalar(fields, 274, 1) != 1 || Scalar(fields, 284, 1) != 1 then Invalid
    else Layout(fields, data, little, bits.value, format.value)
  }

  /** What a TIFF file decodes to; it starts with its byte order. */
  function DecodedTiff(data: seq<byte>): Decoded
    requires |data| >= 4
  {
    var little := data[0] == 'I' as int as byte;
    match Read(data, 4, 4, little)
    case None => Invalid
    case Some(directory) =>
      match Read(data, directory, 2, little)
      case None => Invalid
      case Some(count) =>
        if count > (|data| - directory - 2) / 12 then Invalid
        else
          match Directory(data, directory, count, little)
          case None => Invalid
          case Some(fields) => Interpreted(fields, data, little)
  }

  /** The directory entries of a TIFF file that is left to another decoder. */
  function EntriesForOther(data: seq<byte>): seq<nat>
    requires |data| >= 4 && DecodedTiff(data).Other?
  {
    var little := data[0] == 'I' as int as byte;
    var directory := Read(data, 4, 4, little).value;
    DecoderEntries(data, directory, Read(data, directory, 2, little).value, little)
  }

  predicate StartsWith(data: seq<byte>, prefix: seq<byte>) {
    |data| >= |prefix| && data[..|prefix|] == prefix
  }

  const PNG_MAGIC: seq<byte> := [0x89, 0x50, 0x4E, 0x47, 0x0D, 0x0A, 0x1A, 0x0A]
  const LITTLE_MAGIC: seq<byte> := [0x49, 0x49, 0x2A, 0x00]
  const BIG_MAGIC: seq<byte> := [0x4D, 0x4D, 0x00, 0x2A]

  /** Any encoded image; PNG and other TIFF files are left to another decoder. */
  function DecodedImage(data: seq<byte>): Decoded {
    if |data| > MAX_IMAGE_BYTES then Invalid
    else if StartsWith(data, PNG_MAGIC) then Other
    else if StartsWith(data, LITTLE_MAGIC) || StartsWith(data, BIG_MAGIC) then DecodedTiff(data)
    else Invalid
  }

  // Every image that is produced has the pixels its size calls for -----------------------------------------

  /** Bytes of the first n strips. */
  function Filled(samples: seq<nat>, n: nat, bytes: nat): nat
    requires n <= |samples|
  {
    if n == 0 then 0 else Filled(samples, n - 1, bytes) + Times(samples[n - 1], bytes)
  }

  lemma {:induction false} StripsLength(data: seq<byte>, offsets: seq<nat>, counts: seq<nat>, n: nat, samples: seq<nat>,
                                        bytes: nat, little: bool)
    requires n <= |offsets| == |counts| == |samples|
    requires Strips(data, offsets, counts, n, samples, bytes, little).Some?
    ensures |Strips(data, offsets, counts, n, samples, bytes, little).value| == Filled(samples, n, bytes)
  {
    if n > 0 {
      StripsLength(data, offsets, counts, n - 1, samples, bytes, little);
    }
  }

  lemma {:induction false} FilledIs(width: nat, height: nat, rowsPerStrip: nat, n: nat, m: nat, bytes: nat)
    requires n <= m
    ensures Filled(StripSamples(width, height, rowsPerStrip, m), n, bytes) == RowsBefore(height, rowsPerStrip, n) * width * bytes
  {
    if n > 0 {
      FilledIs(width, height, rowsPerStrip, n - 1, m, bytes);
      TimesIs(StripRows(height, rowsPerStrip, n - 1) * width, bytes);
      RowsAdd(RowsBefore(height, rowsPerStrip, n - 1), StripRows(height, rowsPerStrip, n - 1), width, bytes);
    }
  }

  function RowsBefore(height: nat, rowsPerStrip: nat, n: nat): nat {
    if n == 0 then 0 else RowsBefore(height, rowsPerStrip, n - 1) + StripRows(height, rowsPerStrip, n - 1)
  }

  lemma RowsAdd(a: nat, b: nat, width: nat, bytes: nat)
    ensures a * width * bytes + b * width * bytes == (a + b) * width * bytes
  {
  }

  /** Strips take their rows in turn, up to the height. */
  lemma {:induction false} RowsBeforeIs(height: nat, rowsPerStrip: nat, n: nat)
    ensures RowsBefore(height, rowsPerStrip, n) == if n * rowsPerStrip < height then n * rowsPerStrip else height
    decreases n
  {
    if n > 0 {
      RowsBeforeIs(height, rowsPerStrip, n - 1);
      assert n * rowsPerStrip == (n - 1) * rowsPerStrip + rowsPerStrip;
    } else if height > 0 {
      assert 0 * rowsPerStrip == 0;
    } else {
      assert 0 * rowsPerStrip == 0;
    }
  }

  lemma StripsCoverHeight(height: nat, rowsPerStrip: nat)
    requires height > 0 && rowsPerStrip > 0
    ensures RowsBefore(height, rowsPerStrip, (height - 1) / rowsPerStrip + 1) == height
  {
    var n := (height - 1) / rowsPerStrip + 1;
    RowsBeforeIs(height, rowsPerStrip, n);
    var q := (height - 1) / rowsPerStrip;
    assert height - 1 == q * rowsPerStrip + (height - 1) % rowsPerStrip;
    assert n * rowsPerStrip == q * rowsPerStrip + rowsPerStrip;
  }

  /** For every byte string: an image comes out only with width * height samples of two or four bytes, and
      within the limit. */
  lemma ImageHasItsPixels(data: seq<byte>)
    requires DecodedImage(data).Image?
    ensures var image := DecodedImage(data);
            && image.width > 0 && image.height > 0
            && |image.pixels| == image.height * image.width * (if image.isFloat then 4 else 2) <= MAX_IMAGE_BYTES
  {
    var fields, little := ImageHasFields(data);
    InterpretedHasItsPixels(fields, data, little);
  }

  lemma ImageHasFields(data: seq<byte>) returns (fields: Fields, little: bool)
    requires DecodedImage(data).Image?
    ensures DecodedImage(data) == Interpreted(fields, data, little)
  {
    little := data[0] == 'I' as int as byte;
    var directory := Read(data, 4, 4, little).value;
    fields := Directory(data, directory, Read(data, directory, 2, little).value, little).value;
  }

  lemma InterpretedHasItsPixels(fields: Fields, data: seq<byte>, little: bool)
    requires Interpreted(fields, data, little).Image?
    ensures var image := Interpreted(fields, data, little);
            && image.width > 0 && image.height > 0
            && |image.pixels| == image.height * image.width * (if image.isFloat then 4 else 2) <= MAX_IMAGE_BYTES
  {
    var samples := Scalar(fields, 277, 1);
    LayoutHasItsPixels(fields, data, little, Uniform(fields, 258, 1, samples).value, Uniform(fields, 339, 1, samples).value);
  }

  lemma LayoutHasItsPixels(fields: Fields, data: seq<byte>, little: bool, bits: nat, format: nat)
    requires |List(fields, 273)| == |List(fields, 279)| && bits >= 8 && Layout(fields, data, little, bits, format).Image?
    ensures var image := Layout(fields, data, little, bits, format);
            && image.width > 0 && image.height > 0
            && |image.pixels| == image.height * image.width * (bits / 8) <= MAX_IMAGE_BYTES
  {
    var width, height := Scalar(fields, 256, 0), Scalar(fields, 257, 0);
    var rowsPerStrip := Scalar(fields, 278, height);
    var offsets, counts := List(fields, 273), List(fields, 279);
    var n := |offsets|;
    StripsLength(data, offsets, counts, n, StripSamples(width, height, rowsPerStrip, n), bits / 8, little);
    FilledIs(width, height, rowsPerStrip, n, n, bits / 8);
    StripsCoverHeight(height, rowsPerStrip);
    GoodSizeFits(width, height, bits / 8);
  }

  lemma QuotientBounds(x: nat, m: nat, d: nat)
    requires d > 0
    ensures x <= m / d <==> x * d <= m
  {
    assert m / d * d <= m < (m / d + 1) * d;
    if x <= m / d {
      assert x * d <= m / d * d;
    } else {
      assert x * d >= (m / d + 1) * d;
    }
  }

  lemma GoodSizeFits(width: nat, height: nat, bytes: nat)
    requires bytes > 0 && width > 0 && height > 0
    ensures GoodSize(width, height, bytes) <==> height * width * bytes <= MAX_IMAGE_BYTES
  {
    var row := width * bytes;
    RowOfPixels(width, height, bytes, row);
    QuotientBounds(width, MAX_IMAGE_BYTES, bytes);
    QuotientBounds(height, MAX_IMAGE_BYTES, row);
  }

  lemma RowOfPixels(width: nat, height: nat, bytes: nat, row: nat)
    requires bytes > 0 && width > 0 && height > 0 && row == width * bytes
    ensures row > 0 && height * width * bytes == height * row >= row
  {
  }
}
