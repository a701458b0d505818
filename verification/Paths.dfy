/** Paths of data and video files: as COPY writes them, and as a reader expands the templates that COPY
    records in info.json. */
module Paths {
  datatype Result = Ok(value: string) | Error

  // Decimal numbers ----------------------------------------------------------------------------------

  function Digit(d: nat): char
    requires d < 10
  {
    '0' + d as char
  }

  function Decimal(n: nat): (s: string)
    ensures |s| > 0 && AllDigits(s)
    ensures n > 0 ==> s[0] != '0'
  {
    if n < 10 then [Digit(n)] else Decimal(n / 10) + [Digit(n % 10)]
  }

  predicate AllDigits(s: string) {
    forall i :: 0 <= i < |s| ==> '0' <= s[i] <= '9'
  }

  /** The number a string of digits stands for. */
  function Value(s: string): nat
    requires AllDigits(s)
  {
    if s == "" then 0 else 10 * Value(s[..|s| - 1]) + (s[|s| - 1] - '0') as nat
  }

  lemma {:induction false} ValueOfDecimal(n: nat)
    ensures Value(Decimal(n)) == n
  {
    if n >= 10 {
      ValueOfDecimal(n / 10);
    } else {
      assert Decimal(n)[..0] == "";
    }
  }

  function Repeat(c: char, n: nat): (s: string)
    ensures |s| == n && forall i :: 0 <= i < n ==> s[i] == c
  {
    seq(n, _ => c)
  }

  lemma {:induction false} LeadingZeros(zeros: string, s: string)
    requires AllDigits(s) && forall i :: 0 <= i < |zeros| ==> zeros[i] == '0'
    ensures AllDigits(zeros + s) && Value(zeros + s) == Value(s)
  {
    if s == "" {
      assert zeros + s == zeros;
      if zeros != "" {
        LeadingZeros(zeros[..|zeros| - 1], "");
        assert zeros[..|zeros| - 1] + "" == zeros[..|zeros| - 1];
      }
    } else {
      assert (zeros + s)[..|zeros + s| - 1] == zeros + s[..|s| - 1];
      LeadingZeros(zeros, s[..|s| - 1]);
    }
  }

  /** At least three digits. */
  function PadIndex(n: nat): (s: string)
    ensures AllDigits(s)
  {
    var digits := Decimal(n);
    if |digits| >= 3 then digits else Repeat('0', 3 - |digits|) + digits
  }

  lemma PadIndexIsInjective(m: nat, n: nat)
    requires PadIndex(m) == PadIndex(n)
    ensures m == n
  {
    PaddedValue(m);
    PaddedValue(n);
  }

  lemma PaddedValue(n: nat)
    ensures Value(PadIndex(n)) == n
  {
    var digits := Decimal(n);
    ValueOfDecimal(n);
    if |digits| < 3 {
      LeadingZeros(Repeat('0', 3 - |digits|), digits);
    }
  }

  // Paths that COPY writes ---------------------------------------------------------------------------

  function ChunkPath(prefix: string, chunk: nat, file: nat, suffix: string): string {
    prefix + ("/chunk-" + (PadIndex(chunk) + ("/" + ("file-" + (PadIndex(file) + suffix)))))
  }

  function DataRelativePath(chunk: nat, file: nat): string {
    ChunkPath("data", chunk, file, ".parquet")
  }

  function VideoRelativePath(videoKey: string, chunk: nat, file: nat): string {
    ChunkPath("videos/" + videoKey, chunk, file, ".mp4")
  }

  /** What comes before the first separator is determined by the whole. */
  lemma {:induction false} CutAtSlash(a: string, x: string, b: string, y: string)
    requires a + ("/" + x) == b + ("/" + y)
    requires '/' !in a && '/' !in b
    ensures a == b && x == y
  {
    var whole := a + ("/" + x);
    assert whole[0] == (if a == "" then '/' else a[0]) && whole[0] == (if b == "" then '/' else b[0]);
    if a == "" {
      assert whole == "/" + x && whole == "/" + y;
      assert ("/" + x)[1..] == x && ("/" + y)[1..] == y;
    } else {
      assert whole[1..] == a[1..] + ("/" + x) && whole[1..] == b[1..] + ("/" + y);
      CutAtSlash(a[1..], x, b[1..], y);
      assert a == [a[0]] + a[1..] && b == [b[0]] + b[1..];
    }
  }

  lemma SameSuffix(a: string, b: string, suffix: string)
    requires a + suffix == b + suffix
    ensures a == b
  {
    assert |a| == |b|;
    assert a == (a + suffix)[..|a|] && b == (b + suffix)[..|b|];
  }

  lemma SamePrefix(prefix: string, a: string, b: string)
    requires prefix + a == prefix + b
    ensures a == b
  {
    assert a == (prefix + a)[|prefix|..] && b == (prefix + b)[|prefix|..];
  }

  lemma DigitsHaveNoSlash(s: string)
    requires AllDigits(s)
    ensures '/' !in s
  {
  }

  /** Different files of one feature or table have different paths. */
  lemma ChunkPathIsInjective(prefix: string, suffix: string, c: nat, f: nat, c': nat, f': nat)
    requires ChunkPath(prefix, c, f, suffix) == ChunkPath(prefix, c', f', suffix)
    ensures c == c' && f == f'
  {
    var tail, tail' := "file-" + (PadIndex(f) + suffix), "file-" + (PadIndex(f') + suffix);
    SamePrefix(prefix, "/chunk-" + (PadIndex(c) + ("/" + tail)), "/chunk-" + (PadIndex(c') + ("/" + tail')));
    SamePrefix("/chunk-", PadIndex(c) + ("/" + tail), PadIndex(c') + ("/" + tail'));
    DigitsHaveNoSlash(PadIndex(c));
    DigitsHaveNoSlash(PadIndex(c'));
    CutAtSlash(PadIndex(c), tail, PadIndex(c'), tail');
    SamePrefix("file-", PadIndex(f) + suffix, PadIndex(f') + suffix);
    SameSuffix(PadIndex(f), PadIndex(f'), suffix);
    PadIndexIsInjective(c, c');
    PadIndexIsInjective(f, f');
  }

  // Format specifiers --------------------------------------------------------------------------------

  /** Width of a specifier's digits, as it is accumulated; None for a bad character or a width over 1000. */
  datatype Width = Width(value: nat) | BadWidth

  function WidthOf(digits: string): Width {
    if digits == "" then Width(0)
    else
      var last := digits[|digits| - 1];
      match WidthOf(digits[..|digits| - 1])
      case BadWidth => BadWidth
      case Width(w) =>
        if last < '0' || last > '9' || w > 1000 then BadWidth else Width(w * 10 + (last - '0') as nat)
  }

  /** A non-negative number by a specifier such as "", "d" or "03d". */
  function Formatted(value: int, spec: string): Result {
    if value < 0 then Error
    else if spec == "" || spec == "d" then Ok(Decimal(value))
    else if spec[|spec| - 1] != 'd' then Error
    else
      match WidthOf(spec[..|spec| - 1])
      case BadWidth => Error
      case Width(w) =>
        if w > 1000 then Error
        else if w <= |Decimal(value)| then Ok(Decimal(value))
        else Ok(Repeat(if spec[0] == '0' then '0' else ' ', w - |Decimal(value)|) + Decimal(value))
  }

  method FormatDecimal(value: int, spec: string) returns (r: Result)
    ensures r == Formatted(value, spec)
  {
    if value < 0 {
      return Error;
    }
    var result := Decimal(value);
    if |spec| == 0 {
      return Ok(result);
    }
    if spec[|spec| - 1] != 'd' {
      return Error;
    }
    var widthSpec := spec[..|spec| - 1];
    if |widthSpec| == 0 {
      assert spec == "d";
      return Ok(result);
    }
    var width: nat := 0;
    for i := 0 to |widthSpec|
      invariant WidthOf(widthSpec[..i]) == Width(width)
    {
      var ch := widthSpec[i];
      assert widthSpec[..i + 1][..i] == widthSpec[..i];
      if ch < '0' || ch > '9' || width > 1000 {
        StaysBad(widthSpec, i + 1);
        return Error;
      }
      width := width * 10 + (ch - '0') as nat;
    }
    assert widthSpec[..|widthSpec|] == widthSpec;
    if width > 1000 {
      return Error;
    }
    if width <= |result| {
      return Ok(result);
    }
    r := Ok(Repeat(if widthSpec[0] == '0' then '0' else ' ', width - |result|) + result);
  }

  lemma {:induction false} StaysBad(digits: string, i: nat)
    requires i <= |digits| && WidthOf(digits[..i]) == BadWidth
    ensures WidthOf(digits) == BadWidth
    decreases |digits| - i
  {
    if i == |digits| {
      assert digits[..i] == digits;
    } else {
      assert digits[..i + 1][..i] == digits[..i];
      StaysBad(digits, i + 1);
    }
  }

  /** A specifier is a width of at most 1000 and the letter d, or nothing at all. */
  predicate IsSpecifier(spec: string) {
    spec == "" || (spec[|spec| - 1] == 'd' && AllDigits(spec[..|spec| - 1]) && Value(spec[..|spec| - 1]) <= 1000)
  }

  function SpecifiedWidth(spec: string): nat
    requires IsSpecifier(spec)
  {
    if spec == "" then 0 else Value(spec[..|spec| - 1])
  }

  lemma {:induction false} WidthMeans(digits: string)
    ensures WidthOf(digits).Width? && WidthOf(digits).value <= 1000 <==> AllDigits(digits) && Value(digits) <= 1000
    ensures WidthOf(digits).Width? ==> AllDigits(digits) && WidthOf(digits).value == Value(digits)
  {
    if digits != "" {
      var front, last := digits[..|digits| - 1], digits[|digits| - 1];
      assert digits == front + [last];
      WidthMeans(front);
      if AllDigits(digits) {
        assert AllDigits(front) && Value(digits) == 10 * Value(front) + (last - '0') as nat;
      }
    }
  }

  /** The text is the number's digits, filled up in front to the width with zeros if the specifier starts with one and
      with blanks otherwise. */
  ghost predicate Fills(text: string, value: nat, width: nat, fill: char) {
    var digits := Decimal(value);
    && |text| == (if width < |digits| then |digits| else width)
    && text[|text| - |digits|..] == digits
    && forall i :: 0 <= i < |text| - |digits| ==> text[i] == fill
  }

  /** Negative numbers and other specifiers are refused; everything else is filled up to the width. */
  lemma FormattedMeans(value: int, spec: string)
    ensures Formatted(value, spec).Ok? <==> value >= 0 && IsSpecifier(spec)
    ensures value >= 0 && IsSpecifier(spec) ==>
              Fills(Formatted(value, spec).value, value, SpecifiedWidth(spec), if spec != "" && spec[0] == '0' then '0' else ' ')
  {
    if spec != "" {
      WidthMeans(spec[..|spec| - 1]);
    }
    if spec == "d" {
      assert spec[..0] == "";
    }
  }

  /** The specifier of COPY's templates pads as COPY does. */
  lemma ThreeDigitsPad(n: nat)
    ensures Formatted(n, "03d") == Ok(PadIndex(n))
  {
    var spec := "03d";
    assert spec[..2] == "03" && "03"[..1] == "0" && "0"[..0] == "";
    assert WidthOf("") == Width(0);
    assert WidthOf("0") == Width(0);
    assert WidthOf("03") == Width(3);
  }
}
