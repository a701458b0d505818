/** EncodeDepthTiff and DecodeDepthTiff: the loops that write and read the file. */
module DepthTiffFile {
  import opened Collections
  import opened DepthTiff

  // Writing --------------------------------------------------------------------------------------------

  const ENTRY_COUNT: nat := 11
  const PIXEL_OFFSET: nat := 8 + 2 + 11 * 12 + 4

  datatype Entry = Entry(tag: nat, fieldType: nat, count: nat, value: nat)

  /** The four bytes of an entry's value; a short one comes first. */
  function ValueBytes(e: Entry, little: bool): (r: seq<byte>)
    ensures |r| == 4
  {
    if little || e.fieldType != 3 then Bytes(e.value, 4, little) else Bytes(e.value, 2, little) + [0, 0]
  }

  function EntryBytes(e: Entry, little: bool): (r: seq<byte>)
    ensures |r| == 12
  {
    Bytes(e.tag, 2, little) + Bytes(e.fieldType, 2, little) + Bytes(e.count, 4, little) + ValueBytes(e, little)
  }

  function EntriesBytes(entries: seq<Entry>, n: nat, little: bool): (r: seq<byte>)
    requires n <= |entries|
    ensures |r| == 12 * n
  {
    if n == 0 then [] else EntriesBytes(entries, n - 1, little) + EntryBytes(entries[n - 1], little)
  }

  function SampleBytes(isFloat: bool): nat {
    if isFloat then 4 else 2
  }

  function DepthEntries(width: nat, height: nat, isFloat: bool): (r: seq<Entry>)
    ensures |r| == ENTRY_COUNT
  {
    [Entry(256, 4, 1, width), Entry(257, 4, 1, height), Entry(258, 3, 1, SampleBytes(isFloat) * 8), Entry(259, 3, 1, 1),
     Entry(262, 3, 1, 1), Entry(273, 4, 1, PIXEL_OFFSET), Entry(277, 3, 1, 1), Entry(278, 4, 1, height),
     Entry(279, 4, 1, width * height * SampleBytes(isFloat)), Entry(284, 3, 1, 1), Entry(339, 3, 1, if isFloat then 3 else 1)]
  }

  /** Header, directory and pixels, one after the other. */
  function EncodedTiff(entries: seq<Entry>, raw: seq<byte>, little: bool): seq<byte> {
    [Mark(little), Mark(little)] + Bytes(42, 2, little) + Bytes(8, 4, little) + Bytes(|entries|, 2, little)
    + EntriesBytes(entries, |entries|, little) + Bytes(0, 4, little) + raw
  }

  /** `I` for least significant byte first, `M` for most significant byte first. */
  function Mark(little: bool): byte {
    if little then 0x49 else 0x4D
  }

  method AppendUInt16(result: seq<byte>, value: nat) returns (r: seq<byte>)
    ensures r == result + Bytes(value, 2, true)
  {
    r := result + [(value % 256) as byte];
    r := r + [(value / 256 % 256) as byte];
    assert Bytes(value, 2, true) == [(value % 256) as byte] + Bytes(value / 256, 1, true);
    assert Bytes(value / 256, 1, true) == [(value / 256 % 256) as byte];
  }

  lemma {:induction false} BytesSnoc(value: nat, n: nat)
    ensures Bytes(value, n + 1, true) == Bytes(value, n, true) + [(value / Power(n) % 256) as byte]
  {
    if n > 0 {
      BytesSnoc(value / 256, n - 1);
      QuotientOfQuotient(value, Power(n - 1));
      assert Bytes(value, n + 1, true) == [(value % 256) as byte] + Bytes(value / 256, n, true);
    }
  }

  lemma QuotientOfQuotient(value: nat, p: nat)
    requires p > 0
    ensures value / 256 / p == value / (256 * p)
  {
    var q, r := value / 256, value % 256;
    var a, b := q / p, q % p;
    assert value == 256 * q + r && q == a * p + b;
    assert value == a * (256 * p) + (256 * b + r);
    assert 256 * b + r < 256 * p;
    QuotientIs(value, 256 * p, a, 256 * b + r);
  }

  lemma SmallMultiple(k: int, d: int)
    requires d > 0 && -d < k * d < d
    ensures k == 0
  {
  }

  lemma QuotientIs(x: nat, d: nat, q: nat, r: nat)
    requires x == q * d + r && r < d
    ensures x / d == q
  {
    assert (x / d - q) * d == x / d * d - q * d;
    assert x == x / d * d + x % d;
    SmallMultiple(x / d - q, d);
  }

  method AppendUInt32(result: seq<byte>, value: nat) returns (r: seq<byte>)
    ensures r == result + Bytes(value, 4, true)
  {
    r := result;
    var shift: nat := 1;
    for b := 0 to 4
      invariant r == result + Bytes(value, b, true) && shift == Power(b) && shift > 0
    {
      BytesSnoc(value, b);
      r := r + [(value / shift % 256) as byte];
      shift := shift * 256;
    }
  }

  method AppendTiffEntry(result: seq<byte>, tag: nat, fieldType: nat, count: nat, value: nat) returns (r: seq<byte>)
    ensures r == result + EntryBytes(Entry(tag, fieldType, count, value), true)
  {
    r := AppendUInt16(result, tag);
    r := AppendUInt16(r, fieldType);
    r := AppendUInt32(r, count);
    r := AppendUInt32(r, value);
    Associate(result, Bytes(tag, 2, true), Bytes(fieldType, 2, true), Bytes(count, 4, true), Bytes(value, 4, true));
  }

  lemma Associate(a: seq<byte>, b: seq<byte>, c: seq<byte>, d: seq<byte>, e: seq<byte>)
    ensures a + b + c + d + e == a + (b + c + d + e)
  {
  }

  /** The dimensions and the size of the pixels fit the format's 32-bit fields. */
  predicate CanEncode(width: nat, height: nat, isFloat: bool) {
    width <= 4294967295 && height <= 4294967295 && width * height * (if isFloat then 4 else 2) <= 4294967295
  }

  /** One uint16 or float32 depth frame as a TIFF file, unless its dimensions do not fit the format. */
  method EncodeDepthTiff(raw: seq<byte>, width: nat, height: nat, isFloat: bool) returns (r: Option<seq<byte>>)
    ensures r.Some? <==> CanEncode(width, height, isFloat)
    ensures r.Some? ==> r.value == EncodedTiff(DepthEntries(width, height, isFloat), raw, true)
  {
    var bytesPerSample := if isFloat then 4 else 2;
    var byteCount := width * height * bytesPerSample;
    if width > MAX_UINT32 || height > MAX_UINT32 || byteCount > MAX_UINT32 {
      return None;
    }
    var result: seq<byte> := [0x49, 0x49];
    result := AppendUInt16(result, 42);
    result := AppendUInt32(result, 8);
    result := AppendUInt16(result, ENTRY_COUNT);
    result := AppendEntries(result, width, height, byteCount, bytesPerSample, isFloat);
    result := AppendUInt32(result, 0);
    result := result + raw;
    r := Some(result);
  }

  /** The directory's entries. */
  method AppendEntries(start: seq<byte>, width: nat, height: nat, byteCount: nat, bytesPerSample: nat, isFloat: bool)
    returns (result: seq<byte>)
    requires bytesPerSample == SampleBytes(isFloat) && byteCount == width * height * bytesPerSample
    ensures result == start + EntriesBytes(DepthEntries(width, height, isFloat), ENTRY_COUNT, true)
  {
    ghost var entries := DepthEntries(width, height, isFloat);
    result := AppendTiffEntry(start, 256, 4, 1, width);
    Appended(start, start, entries, 0, result);
    result := AppendNext(start, entries, 1, result, 257, 4, height);
    result := AppendNext(start, entries, 2, result, 258, 3, bytesPerSample * 8);
    result := AppendNext(start, entries, 3, result, 259, 3, 1);
    result := AppendNext(start, entries, 4, result, 262, 3, 1);
    result := AppendLayoutEntries(start, entries, result, width, height, byteCount, isFloat);
  }

  method AppendLayoutEntries(ghost start: seq<byte>, ghost entries: seq<Entry>, before: seq<byte>,
                             width: nat, height: nat, byteCount: nat, isFloat: bool)
    returns (result: seq<byte>)
    requires entries == DepthEntries(width, height, isFloat) && byteCount == width * height * SampleBytes(isFloat)
    requires before == start + EntriesBytes(entries, 5, true)
    ensures result == start + EntriesBytes(entries, ENTRY_COUNT, true)
  {
    result := AppendNext(start, entries, 5, before, 273, 4, PIXEL_OFFSET);
    result := AppendNext(start, entries, 6, result, 277, 3, 1);
    result := AppendNext(start, entries, 7, result, 278, 4, height);
    result := AppendNext(start, entries, 8, result, 279, 4, byteCount);
    result := AppendNext(start, entries, 9, result, 284, 3, 1);
    result := AppendNext(start, entries, 10, result, 339, 3, if isFloat then 3 else 1);
  }

  lemma Appended(start: seq<byte>, before: seq<byte>, entries: seq<Entry>, k: nat, after: seq<byte>)
    requires k < |entries| && before == start + EntriesBytes(entries, k, true) && after == before + EntryBytes(entries[k], true)
    ensures after == start + EntriesBytes(entries, k + 1, true)
  {
  }

  /** Entry k, which holds a single value. */
  method AppendNext(ghost start: seq<byte>, ghost entries: seq<Entry>, ghost k: nat, before: seq<byte>,
                    tag: nat, fieldType: nat, value: nat) returns (after: seq<byte>)
    requires k < |entries| && entries[k] == Entry(tag, fieldType, 1, value) && before == start + EntriesBytes(entries, k, true)
    ensures after == start + EntriesBytes(entries, k + 1, true)
  {
    after := AppendTiffEntry(before, tag, fieldType, 1, value);
    Appended(start, before, entries, k, after);
  }
}
