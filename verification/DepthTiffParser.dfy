/** DecodeDepthTiff and the start of DecodeImage: the loops that read a file, for any bytes whatever. */
module DepthTiffParser {
  import opened Collections
  import opened DepthTiff

  lemma {:induction false} NumberSnoc(data: seq<byte>, offset: nat, n: nat)
    requires offset + n + 1 <= |data|
    ensures Number(data, offset, n + 1, true) == Number(data, offset, n, true) + data[offset + n] as nat * Power(n)
    decreases n
  {
    if n > 0 {
      NumberSnoc(data, offset + 1, n - 1);
      LittleStep(Number(data, offset + 1, n - 1, true), data[offset + n] as nat, Power(n - 1), Power(n),
                 Number(data, offset + 1, n, true));
    }
  }

  lemma LittleStep(x: nat, d: nat, p: nat, q: nat, y: nat)
    requires y == x + d * p && q == 256 * p
    ensures 256 * y == 256 * x + d * q
  {
  }

  lemma BigStep(x: nat, d: nat, p: nat)
    ensures (d + 256 * x) * p == x * (256 * p) + d * p
  {
  }

  /** The unsigned number of n bytes at an offset, None beyond the end of the data. */
  method ReadNumber(data: seq<byte>, offset: nat, n: nat, little: bool) returns (r: Option<nat>)
    ensures r == Read(data, offset, n, little)
  {
    if offset > |data| || n > |data| - offset {
      return None;
    }
    var value: nat := 0;
    for i := 0 to n
      invariant little ==> value == Number(data, offset, i, true)
      invariant !little ==> value == Number(data, offset, i, false) * Power(n - i)
    {
      if little {
        NumberSnoc(data, offset, i);
      } else {
        BigStep(Number(data, offset, i, false), data[offset + i] as nat, Power(n - i - 1));
      }
      value := value + data[offset + i] as nat * Power(if little then i else n - i - 1);
    }
    r := Some(value);
  }

  lemma ElementFits(elements: nat, j: nat, size: nat)
    requires j < elements
    ensures j * size + size <= elements * size && (j + 1) * size == j * size + size
  {
    assert (elements - j - 1) * size >= 0;
    assert elements * size == (elements - j - 1) * size + j * size + size;
  }

  method ReadValues(data: seq<byte>, offset: nat, elements: nat, size: nat, little: bool) returns (values: seq<nat>)
    requires offset + elements * size <= |data|
    ensures values == Values(data, offset, elements, size, little)
  {
    values := [];
    var position := offset;
    for j := 0 to elements
      invariant position == offset + j * size && position <= |data|
      invariant values == Values(data, offset, j, size, little)
    {
      ElementFits(elements, j, size);
      var value := ReadNumber(data, position, size, little);
      ValuesSnoc(data, offset, j, size, little, position);
      values := values + [value.value];
      position := position + size;
    }
  }

  lemma ValuesSnoc(data: seq<byte>, offset: nat, j: nat, size: nat, little: bool, position: nat)
    requires position == offset + j * size && position + size <= |data| && (j + 1) * size == j * size + size
    ensures Values(data, offset, j + 1, size, little) == Values(data, offset, j, size, little) + [Number(data, position, size, little)]
  {
  }

  /** The values of one entry. */
  method ReadEntry(data: seq<byte>, entry: nat, tag: nat, little: bool) returns (r: Option<seq<nat>>)
    requires entry + 12 <= |data| && tag == Number(data, entry, 2, little)
    ensures r == EntryValues(data, entry, little)
  {
    var fieldType := ReadNumber(data, entry + 2, 2, little);
    var elements := ReadNumber(data, entry + 4, 4, little);
    var elementSize := ElementSize(fieldType.value);
    if elementSize == 0 || elements.value == 0 || elements.value > MaxElements(tag, |data|)
       || elements.value > |data| / elementSize {
      return None;
    }
    var bytes := elements.value * elementSize;
    var offset := entry + 8;
    if bytes > 4 {
      var pointer := ReadNumber(data, entry + 8, 4, little);
      offset := pointer.value;
    }
    if offset > |data| || bytes > |data| - offset {
      return None;
    }
    var values := ReadValues(data, offset, elements.value, elementSize, little);
    r := Some(values);
  }

  lemma {:induction false} StaysBad(data: seq<byte>, directory: nat, i: nat, count: nat, little: bool)
    requires i <= count && directory + 2 + 12 * count <= |data| && Directory(data, directory, i, little).None?
    ensures Directory(data, directory, count, little).None?
  {
    if i < count {
      StaysBad(data, directory, i, count - 1, little);
    }
  }

  /** The next entry added to the fields. */
  method ReadNextEntry(data: seq<byte>, entry: nat, little: bool, fields: Fields) returns (r: Option<Fields>, tag: nat)
    requires entry + 12 <= |data|
    ensures r == WithEntry(data, entry, little, fields) && tag == Number(data, entry, 2, little)
  {
    var number := ReadNumber(data, entry, 2, little);
    tag := number.value;
    if !IsKnown(tag) {
      return Some(fields), tag;
    }
    var values := ReadEntry(data, entry, tag, little);
    if values.None? || tag in fields {
      return None, tag;
    }
    r := Some(fields[tag := values.value]);
  }

  /** The directory's fields, and the entries for another decoder. */
  method ReadDirectory(data: seq<byte>, directory: nat, count: nat, little: bool)
    returns (r: Option<Fields>, decoderEntries: seq<nat>)
    requires directory + 2 + 12 * count <= |data|
    ensures r == Directory(data, directory, count, little)
    ensures r.Some? ==> decoderEntries == DecoderEntries(data, directory, count, little)
  {
    var fields: Fields := map[];
    decoderEntries := [];
    for i := 0 to count
      invariant Directory(data, directory, i, little) == Some(fields)
      invariant decoderEntries == DecoderEntries(data, directory, i, little)
    {
      var entry := directory + 2 + i * 12;
      DirectorySnoc(data, directory, i, little, fields, entry);
      var next, tag := ReadNextEntry(data, entry, little, fields);
      if next.None? {
        StaysBad(data, directory, i + 1, count, little);
        return None, decoderEntries;
      }
      if tag != 338 && tag != 339 {
        decoderEntries := decoderEntries + [entry];
      }
      fields := next.value;
    }
    r := Some(fields);
  }

  method ReadUniform(fields: Fields, tag: nat, fallback: nat, samples: nat) returns (r: Option<nat>)
    ensures r == Uniform(fields, tag, fallback, samples)
  {
    if tag !in fields {
      return Some(fallback);
    }
    var values := fields[tag];
    if |values| == 0 || (|values| != 1 && |values| != samples) {
      return None;
    }
    for i := 0 to |values|
      invariant forall j :: 0 <= j < i ==> values[j] == values[0]
    {
      if values[i] != values[0] {
        return None;
      }
    }
    r := Some(values[0]);
  }

  method CheckStrips(size: nat, offsets: seq<nat>, counts: seq<nat>) returns (ok: bool)
    requires |offsets| == |counts|
    ensures ok == StripsInRange(size, offsets, counts)
  {
    for i := 0 to |offsets|
      invariant forall j :: 0 <= j < i ==> StripInRange(size, offsets, counts, j)
    {
      if offsets[i] > size || counts[i] > size - offsets[i] {
        assert !StripInRange(size, offsets, counts, i);
        return false;
      }
    }
    ok := true;
  }

  // Pixels ---------------------------------------------------------------------------------------------

  /** One sample, in the byte order of the output, behind the pixels written before. */
  method CopySample(pixels: array<byte>, at: nat, data: seq<byte>, offset: nat, bytes: nat, little: bool, ghost before: seq<byte>)
    requires at + bytes <= pixels.Length && offset + bytes <= |data| && pixels[..at] == before
    modifies pixels
    ensures pixels[..at + bytes] == before + Sample(data, offset, bytes, little)
  {
    ghost var sample := Sample(data, offset, bytes, little);
    for b := 0 to bytes
      invariant pixels[..at] == before
      invariant forall c :: at <= c < at + b ==> pixels[c] == sample[c - at]
    {
      pixels[at + b] := data[offset + if little then b else bytes - b - 1];
      assert pixels[at + b] == sample[b];
    }
    assert pixels[..at + bytes] == pixels[..at] + sample;
  }

  lemma StripSnoc(data: seq<byte>, offset: nat, j: nat, bytes: nat, little: bool, before: seq<byte>)
    requires offset + Times(j, bytes) + bytes <= |data|
    ensures offset + Times(j + 1, bytes) <= |data|
    ensures before + Strip(data, offset, j, bytes, little) + Sample(data, offset + Times(j, bytes), bytes, little)
            == before + Strip(data, offset, j + 1, bytes, little)
  {
  }

  /** The samples of one strip, behind the pixels written before. */
  method CopyStrip(pixels: array<byte>, position: nat, data: seq<byte>, offset: nat, samples: nat, bytes: nat, little: bool,
                   ghost before: seq<byte>)
    requires position + Times(samples, bytes) <= pixels.Length && offset + Times(samples, bytes) <= |data|
    requires pixels[..position] == before
    modifies pixels
    ensures pixels[..position + Times(samples, bytes)] == before + Strip(data, offset, samples, bytes, little)
  {
    var length := 0;
    for j := 0 to samples
      invariant length == Times(j, bytes) && position + length <= pixels.Length && offset + length <= |data|
      invariant pixels[..position + length] == before + Strip(data, offset, j, bytes, little)
    {
      TimesGrows(j + 1, samples, bytes);
      ghost var done := before + Strip(data, offset, j, bytes, little);
      CopySample(pixels, position + length, data, offset + length, bytes, little, done);
      StripSnoc(data, offset, j, bytes, little, before);
      length := length + bytes;
    }
  }

  lemma {:induction false} FilledGrows(samples: seq<nat>, i: nat, n: nat, bytes: nat)
    requires i <= n <= |samples|
    ensures Filled(samples, i, bytes) <= Filled(samples, n, bytes)
  {
    if i < n {
      FilledGrows(samples, i, n - 1, bytes);
    }
  }

  lemma {:induction false} StripsStayBad(data: seq<byte>, offsets: seq<nat>, counts: seq<nat>, i: nat, n: nat, samples: seq<nat>,
                                         bytes: nat, little: bool)
    requires i <= n <= |offsets| == |counts| == |samples| && Strips(data, offsets, counts, i, samples, bytes, little).None?
    ensures Strips(data, offsets, counts, n, samples, bytes, little).None?
  {
    if i < n {
      StripsStayBad(data, offsets, counts, i, n - 1, samples, bytes, little);
    }
  }

  /** One strip, if it has the size its rows need and lies within the data. */
  method ReadStrip(pixels: array<byte>, position: nat, data: seq<byte>, offset: nat, count: nat, samples: nat, bytes: nat,
                   little: bool, ghost before: seq<byte>) returns (ok: bool, length: nat)
    requires position + Times(samples, bytes) <= pixels.Length && pixels[..position] == before
    modifies pixels
    ensures length == Times(samples, bytes)
    ensures ok <==> count == length && offset <= |data| && count <= |data| - offset
    ensures ok ==> pixels[..position + length] == before + Strip(data, offset, samples, bytes, little)
  {
    TimesIs(samples, bytes);
    length := samples * bytes;
    ok := count == length && offset <= |data| && length <= |data| - offset;
    if ok {
      CopyStrip(pixels, position, data, offset, samples, bytes, little, before);
    }
  }

  lemma StripsNext(data: seq<byte>, offsets: seq<nat>, counts: seq<nat>, i: nat, samples: seq<nat>, bytes: nat, little: bool,
                   done: seq<byte>)
    requires i < |offsets| == |counts| == |samples| && Strips(data, offsets, counts, i, samples, bytes, little) == Some(done)
    ensures var length := Times(samples[i], bytes);
            Strips(data, offsets, counts, i + 1, samples, bytes, little) ==
            if counts[i] == length && offsets[i] <= |data| && counts[i] <= |data| - offsets[i]
            then Some(done + Strip(data, offsets[i], samples[i], bytes, little)) else None
  {
  }

  /** Strip i behind the ones before it. */
  method ReadNextStrip(pixels: array<byte>, position: nat, data: seq<byte>, offsets: seq<nat>, counts: seq<nat>, i: nat,
                       length: nat, bytes: nat, little: bool, ghost samples: seq<nat>, ghost done: seq<byte>)
    returns (ok: bool, next: nat, ghost more: seq<byte>)
    requires i < |offsets| == |counts| == |samples| && pixels.Length == Filled(samples, |samples|, bytes)
    requires position == Filled(samples, i, bytes) && length == samples[i] && position <= pixels.Length
    requires Strips(data, offsets, counts, i, samples, bytes, little) == Some(done) && pixels[..position] == done
    modifies pixels
    ensures Strips(data, offsets, counts, i + 1, samples, bytes, little) == if ok then Some(more) else None
    ensures ok ==> next == Filled(samples, i + 1, bytes) <= pixels.Length && pixels[..next] == more
  {
    FilledGrows(samples, i + 1, |samples|, bytes);
    StripsNext(data, offsets, counts, i, samples, bytes, little, done);
    var size: nat;
    ok, size := ReadStrip(pixels, position, data, offsets[i], counts[i], length, bytes, little, done);
    next := position + size;
    more := pixels[..next];
  }

  /** Assemble the pixels of all strips; no write leaves the pixel buffer. */
  method ReadStrips(data: seq<byte>, offsets: seq<nat>, counts: seq<nat>, width: nat, height: nat, rowsPerStrip: nat,
                    bytes: nat, little: bool, size: nat, ghost samples: seq<nat>) returns (r: Option<seq<byte>>)
    requires |offsets| == |counts| && samples == StripSamples(width, height, rowsPerStrip, |offsets|)
    requires size == Filled(samples, |offsets|, bytes)
    ensures r == Strips(data, offsets, counts, |offsets|, samples, bytes, little)
  {
    var pixels := new byte[size](_ => 0);
    var position, ok := 0, true;
    ghost var done: seq<byte> := [];
    for i := 0 to |offsets|
      invariant position == Filled(samples, i, bytes) <= pixels.Length
      invariant Strips(data, offsets, counts, i, samples, bytes, little) == Some(done)
      invariant pixels[..position] == done
    {
      var rows := StripRows(height, rowsPerStrip, i);
      ok, position, done := ReadNextStrip(pixels, position, data, offsets, counts, i, rows * width, bytes, little, samples, done);
      if !ok {
        StripsStayBad(data, offsets, counts, i + 1, |offsets|, samples, bytes, little);
        return None;
      }
    }
    assert pixels[..] == pixels[..position];
    r := Some(pixels[..]);
  }

  method ReadLayout(fields: Fields, data: seq<byte>, little: bool, bits: nat, format: nat) returns (r: Decoded)
    requires |List(fields, 273)| == |List(fields, 279)| && bits >= 8
    ensures r == Layout(fields, data, little, bits, format)
  {
    var offsets, counts := List(fields, 273), List(fields, 279);
    var width, height, bytes := Scalar(fields, 256, 0), Scalar(fields, 257, 0), bits / 8;
    if !GoodSize(width, height, bytes) {
      return Invalid;
    }
    var rowsPerStrip := Scalar(fields, 278, height);
    if rowsPerStrip == 0 || |offsets| != (height - 1) / rowsPerStrip + 1 {
      return Invalid;
    }
    StripsCoverHeight(height, rowsPerStrip);
    ghost var samples := StripSamples(width, height, rowsPerStrip, |offsets|);
    FilledIs(width, height, rowsPerStrip, |offsets|, |offsets|, bytes);
    var pixels := ReadStrips(data, offsets, counts, width, height, rowsPerStrip, bytes, little, height * width * bytes, samples);
    r := if pixels.None? then Invalid else Image(pixels.value, width, height, format == 3);
  }

  method Interpret(fields: Fields, data: seq<byte>, little: bool) returns (r: Decoded)
    ensures r == Interpreted(fields, data, little)
  {
    var samples := Scalar(fields, 277, 1);
    var bits := ReadUniform(fields, 258, 1, samples);
    if bits.None? {
      return Invalid;
    }
    var format := ReadUniform(fields, 339, 1, samples);
    if format.None? || !SupportedSamples(samples, bits.value, format.value) || BadExtraSamples(fields, samples) {
      return Invalid;
    }
    var offsets, counts := List(fields, 273), List(fields, 279);
    if |offsets| != |counts| {
      return Invalid;
    }
    var inRange := CheckStrips(|data|, offsets, counts);
    if !inRange {
      return Invalid;
    }
    if !IsDepth(samples, bits.value, format.value) {
      return Other;
    }
    if Scalar(fields, 259, 1) != 1 {
      return if format.value == 3 then Invalid else Other;
    }
    if Scalar(fields, 262, 1) != 1 || Scalar(fields, 274, 1) != 1 || Scalar(fields, 284, 1) != 1 {
      return Invalid;
    }
    r := ReadLayout(fields, data, little, bits.value, format.value);
  }

  /** A TIFF file, recognized by its first four bytes. */
  method DecodeDepthTiff(data: seq<byte>) returns (r: Decoded, decoderEntries: seq<nat>)
    requires |data| >= 4
    ensures r == DecodedTiff(data)
    ensures r.Other? ==> decoderEntries == EntriesForOther(data)
  {
    decoderEntries := [];
    var little := data[0] == 'I' as int as byte;
    var directory := ReadNumber(data, 4, 4, little);
    if directory.None? {
      return Invalid, decoderEntries;
    }
    var count := ReadNumber(data, directory.value, 2, little);
    if count.None? || count.value > (|data| - directory.value - 2) / 12 {
      return Invalid, decoderEntries;
    }
    var fields: Option<Fields>;
    fields, decoderEntries := ReadDirectory(data, directory.value, count.value, little);
    if fields.None? {
      return Invalid, decoderEntries;
    }
    r := Interpret(fields.value, data, little);
  }

  /** An encoded image; `Other` stands for what is left to another decoder, a TIFF file with these entries. */
  method DecodeImage(data: seq<byte>) returns (r: Decoded, decoderEntries: seq<nat>)
    ensures r == DecodedImage(data)
    ensures r.Other? ==> decoderEntries == if StartsWith(data, PNG_MAGIC) then [] else EntriesForOther(data)
  {
    decoderEntries := [];
    if |data| > MAX_IMAGE_BYTES {
      return Invalid, decoderEntries;
    }
    if |data| >= 8 && data[..8] == PNG_MAGIC {
      return Other, decoderEntries;
    }
    if |data| >= 4 && (data[..4] == LITTLE_MAGIC || data[..4] == BIG_MAGIC) {
      r, decoderEntries := DecodeDepthTiff(data);
      return;
    }
    r := Invalid;
  }
}
