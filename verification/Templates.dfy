/** FormatPathTemplate: expansion of a path template, and its inverse, the templates that describe given
    pieces. */
module Templates {
  import opened Paths

  /** Values for the placeholders; a data path has no video key. */
  datatype Fields = Fields(chunk: int, file: int, hasKey: bool, key: string)

  function Find(s: string, c: char, i: nat): (k: nat)
    requires i <= |s|
    ensures i <= k <= |s| && (k < |s| ==> s[k] == c) && forall j :: i <= j < k ==> s[j] != c
    decreases |s| - i
  {
    if i == |s| || s[i] == c then i else Find(s, c, i + 1)
  }

  /** One placeholder, without its braces. */
  function FieldValue(placeholder: string, fields: Fields): Result {
    var colon := Find(placeholder, ':', 0);
    var name := placeholder[..colon];
    var spec := if colon == |placeholder| then "" else placeholder[colon + 1..];
    if name == "chunk_index" then Formatted(fields.chunk, spec)
    else if name == "file_index" then Formatted(fields.file, spec)
    else if name == "video_key" && fields.hasKey then if spec != "" then Error else Ok(fields.key)
    else Error
  }

  function Prepend(s: string, r: Result): Result {
    if r.Ok? then Ok(s + r.value) else Error
  }

  /** What reading the front of a template does: it emits text for the first `length` characters. */
  datatype Front = Bad | Emit(text: string, length: nat)

  /** A placeholder, its opening brace already read. */
  function Substitute(t: string, fields: Fields): (r: Front)
    ensures r.Emit? ==> r.length <= |t|
  {
    var close := Find(t, '}', 0);
    if close == |t| then Bad else Emitted(FieldValue(t[..close], fields), close + 1)
  }

  function Emitted(value: Result, length: nat): Front {
    if value.Error? then Bad else Emit(value.value, length)
  }

  function ReadFront(t: string, fields: Fields): (r: Front)
    requires t != ""
    ensures r.Emit? ==> 0 < r.length <= |t|
  {
    if t[0] == '{' then
      if |t| > 1 && t[1] == '{' then Emit("{", 2)
      else
        match Substitute(t[1..], fields)
        case Bad => Bad
        case Emit(text, length) => Emit(text, length + 1)
    else if t[0] == '}' then
      if |t| > 1 && t[1] == '}' then Emit("}", 2) else Bad
    else Emit([t[0]], 1)
  }

  /** What the template expands to. */
  function Expanded(t: string, fields: Fields): Result
    decreases |t|
  {
    if t == "" then Ok("")
    else
      match ReadFront(t, fields)
      case Bad => Error
      case Emit(text, length) => Prepend(text, Expanded(t[length..], fields))
  }

  lemma PrependTwice(a: string, b: string, r: Result)
    ensures Prepend(a, Prepend(b, r)) == Prepend(a + b, r)
  {
    if r.Ok? {
      assert a + (b + r.value) == a + b + r.value;
    }
  }

  method FormatPathTemplate(template: string, fields: Fields) returns (r: Result)
    ensures r == Expanded(template, fields)
  {
    ghost var expand := (t: string) => Expanded(t, fields);
    assert forall t :: IsExpansion(expand, t, fields);
    r := FormatBy(template, fields, expand);
    assert IsExpansion(expand, template, fields);
  }

  /** Expanded as a function value, which the loop looks into one step at a time. */
  ghost predicate IsExpansion(expand: string -> Result, t: string, fields: Fields) {
    expand(t) == Expanded(t, fields)
  }

  method FormatBy(template: string, fields: Fields, ghost expand: string -> Result) returns (r: Result)
    requires forall t :: IsExpansion(expand, t, fields)
    ensures r == expand(template)
  {
    var result := "";
    var index := 0;
    PrependNothing(expand(template));
    assert template[0..] == template;
    while index < |template|
      invariant index <= |template|
      invariant Prepend(result, expand(template[index..])) == expand(template)
      decreases |template| - index
    {
      var front := NextFront(template, index, fields);
      FrontOf(template, index, fields, expand);
      if front.Bad? {
        return Error;
      }
      PrependTwice(result, front.text, expand(template[index + front.length..]));
      result := result + front.text;
      index := index + front.length;
    }
    EndOf(template[index..], fields, expand);
    assert result + "" == result;
    r := Ok(result);
  }

  lemma EndOf(t: string, fields: Fields, expand: string -> Result)
    requires t == "" && IsExpansion(expand, t, fields)
    ensures expand(t) == Ok("")
  {
  }

  lemma FrontOf(template: string, index: nat, fields: Fields, expand: string -> Result)
    requires index < |template| && forall t :: IsExpansion(expand, t, fields)
    ensures match ReadFront(template[index..], fields)
            case Bad => expand(template[index..]) == Error
            case Emit(text, length) =>
              && index + length <= |template|
              && expand(template[index..]) == Prepend(text, expand(template[index + length..]))
  {
    var rest := template[index..];
    assert IsExpansion(expand, rest, fields);
    match ReadFront(rest, fields)
    case Bad =>
    case Emit(_, length) =>
      assert rest[length..] == template[index + length..];
      assert IsExpansion(expand, rest[length..], fields);
  }

  /** One pass of the loop of FormatPathTemplate. */
  method NextFront(template: string, index: nat, fields: Fields) returns (r: Front)
    requires index < |template|
    ensures r == ReadFront(template[index..], fields)
  {
    var ch := template[index];
    if ch == '{' {
      if index + 1 < |template| && template[index + 1] == '{' {
        return Emit("{", 2);
      }
      r := NextPlaceholder(template, index + 1, fields);
      assert template[index..][1..] == template[index + 1..];
      return if r.Bad? then Bad else Emit(r.text, r.length + 1);
    }
    if ch == '}' {
      if index + 1 < |template| && template[index + 1] == '}' {
        return Emit("}", 2);
      }
      return Bad;
    }
    r := Emit([ch], 1);
  }

  method NextPlaceholder(template: string, index: nat, fields: Fields) returns (r: Front)
    requires index <= |template|
    ensures r == Substitute(template[index..], fields)
  {
    var close := Find(template, '}', index);
    ghost var rest := template[index..];
    FindFrom(template, index, '}', rest);
    if close == |template| {
      return Bad;
    }
    var placeholder := template[index..close];
    assert rest[..close - index] == placeholder;
    SubstituteIs(rest, close - index, placeholder, fields);
    var value := Placeholder(placeholder, fields);
    r := Emitted(value, close - index + 1);
  }

  lemma FindFrom(template: string, index: nat, c: char, rest: string)
    requires index <= |template| && rest == template[index..]
    ensures Find(template, c, index) == index + Find(rest, c, 0)
  {
    assert template == template[..index] + rest;
    FindSuffix(template[..index], rest, c, 0);
  }

  lemma SubstituteIs(t: string, close: nat, placeholder: string, fields: Fields)
    requires close == Find(t, '}', 0) < |t| && placeholder == t[..close]
    ensures Substitute(t, fields) == Emitted(FieldValue(placeholder, fields), close + 1)
  {
  }

  method Placeholder(placeholder: string, fields: Fields) returns (r: Result)
    ensures r == FieldValue(placeholder, fields)
  {
    var colon := Find(placeholder, ':', 0);
    var name := placeholder[..colon];
    var spec := if colon == |placeholder| then "" else placeholder[colon + 1..];
    if name == "chunk_index" {
      r := FormatDecimal(fields.chunk, spec);
    } else if name == "file_index" {
      r := FormatDecimal(fields.file, spec);
    } else if name == "video_key" && fields.hasKey {
      r := if |spec| > 0 then Error else Ok(fields.key);
    } else {
      r := Error;
    }
  }

  // Writing templates --------------------------------------------------------------------------------

  datatype Piece = Text(text: string) | Field(placeholder: string)

  /** Braces in text are doubled. */
  function Escaped(text: string): string {
    if text == "" then ""
    else EscapedChar(text[0]) + Escaped(text[1..])
  }

  predicate Writable(piece: Piece) {
    piece.Field? ==> piece.placeholder != "" && '}' !in piece.placeholder && piece.placeholder[0] != '{'
  }

  function Written(pieces: seq<Piece>): string {
    if pieces == [] then ""
    else
      (match pieces[0]
       case Text(text) => Escaped(text)
       case Field(placeholder) => InBraces(placeholder))
      + Written(pieces[1..])
  }

  function PieceValue(piece: Piece, fields: Fields): Result {
    match piece
    case Text(text) => Ok(text)
    case Field(placeholder) => FieldValue(placeholder, fields)
  }

  function Values(pieces: seq<Piece>, fields: Fields): Result {
    if pieces == [] then Ok("")
    else
      var value := PieceValue(pieces[0], fields);
      if value.Error? then Error else Prepend(value.value, Values(pieces[1..], fields))
  }

  lemma {:induction false} FindSuffix(prefix: string, t: string, c: char, i: nat)
    requires i <= |t|
    ensures Find(prefix + t, c, |prefix| + i) == |prefix| + Find(t, c, i)
    decreases |t| - i
  {
    if i < |t| {
      assert (prefix + t)[|prefix| + i] == t[i];
      if t[i] != c {
        FindSuffix(prefix, t, c, i + 1);
      }
    }
  }

  /** If the front of head + rest is head, expansion goes on with rest. */
  lemma ExpandedPast(head: string, rest: string, text: string, fields: Fields)
    requires head != "" && ReadFront(head + rest, fields) == Emit(text, |head|)
    ensures Expanded(head + rest, fields) == Prepend(text, Expanded(rest, fields))
  {
    assert (head + rest)[|head|..] == rest;
  }

  function EscapedChar(c: char): string {
    if c == '{' then "{{" else if c == '}' then "}}" else [c]
  }

  lemma ExpandedChar(c: char, rest: string, fields: Fields)
    ensures Expanded(EscapedChar(c) + rest, fields) == Prepend([c], Expanded(rest, fields))
  {
    var head := EscapedChar(c);
    assert (head + rest)[0] == head[0] && (|head| > 1 ==> (head + rest)[1] == head[1]);
    ExpandedPast(head, rest, [c], fields);
  }

  lemma {:induction false} ExpandedText(text: string, rest: string, fields: Fields)
    ensures Expanded(Escaped(text) + rest, fields) == Prepend(text, Expanded(rest, fields))
  {
    if text == "" {
      assert Escaped(text) + rest == rest;
      PrependNothing(Expanded(rest, fields));
    } else {
      var tail := Escaped(text[1..]) + rest;
      assert Escaped(text) + rest == EscapedChar(text[0]) + tail;
      ExpandedChar(text[0], tail, fields);
      ExpandedText(text[1..], rest, fields);
      PrependTwice([text[0]], text[1..], Expanded(rest, fields));
      assert [text[0]] + text[1..] == text;
    }
  }

  lemma PrependNothing(r: Result)
    ensures Prepend("", r) == r
  {
    if r.Ok? {
      assert "" + r.value == r.value;
    }
  }

  function InBraces(placeholder: string): string {
    "{" + (placeholder + "}")
  }

  lemma SubstituteFirst(placeholder: string, rest: string, fields: Fields)
    requires '}' !in placeholder
    ensures Substitute((placeholder + "}") + rest, fields) ==
            var value := FieldValue(placeholder, fields);
            if value.Error? then Bad else Emit(value.value, |placeholder| + 1)
  {
    var t := (placeholder + "}") + rest;
    assert t[|placeholder|] == '}' && forall j :: 0 <= j < |placeholder| ==> t[j] == placeholder[j];
    assert Find(t, '}', 0) == |placeholder|;
    assert t[..|placeholder|] == placeholder;
  }

  lemma ExpandedField(placeholder: string, rest: string, fields: Fields)
    requires Writable(Field(placeholder))
    ensures Expanded(InBraces(placeholder) + rest, fields) ==
            var value := FieldValue(placeholder, fields);
            if value.Error? then Error else Prepend(value.value, Expanded(rest, fields))
  {
    var t := InBraces(placeholder) + rest;
    SubstituteFirst(placeholder, rest, fields);
    assert t[0] == '{' && t[1] == placeholder[0] && t[1..] == (placeholder + "}") + rest;
    var value := FieldValue(placeholder, fields);
    if value.Ok? {
      ExpandedPast(InBraces(placeholder), rest, value.value, fields);
    }
  }

  /** Expansion undoes writing: for all pieces and values, the template written from the pieces expands
      to their values. */
  lemma {:induction false} ExpandedWritten(pieces: seq<Piece>, fields: Fields)
    requires forall k :: 0 <= k < |pieces| ==> Writable(pieces[k])
    ensures Expanded(Written(pieces), fields) == Values(pieces, fields)
  {
    if pieces != [] {
      var rest := Written(pieces[1..]);
      ExpandedWritten(pieces[1..], fields);
      match pieces[0]
      case Text(text) => ExpandedText(text, rest, fields);
      case Field(placeholder) => ExpandedField(placeholder, rest, fields);
    }
  }

  /** The pieces can be written and have values. */
  ghost predicate HaveValues(pieces: seq<Piece>, fields: Fields) {
    forall k :: 0 <= k < |pieces| ==> Writable(pieces[k]) && PieceValue(pieces[k], fields).Ok?
  }

  /** Nothing else is expanded: a template that is accepted is written from text and placeholders, braces in text doubled. */
  lemma {:induction false} AcceptedIsWritten(t: string, fields: Fields) returns (pieces: seq<Piece>)
    requires Expanded(t, fields).Ok?
    ensures Written(pieces) == t && HaveValues(pieces, fields)
    decreases |t|
  {
    pieces := [];
    if t != "" {
      var piece, front, tail := CutFront(t, fields);
      var rest := AcceptedIsWritten(tail, fields);
      pieces := OneMorePiece(piece, rest, front, tail, fields);
    }
  }

  /** The front of an accepted template is one piece, and the rest is accepted. */
  lemma CutFront(t: string, fields: Fields) returns (piece: Piece, front: string, tail: string)
    requires t != "" && Expanded(t, fields).Ok?
    ensures t == front + tail && |tail| < |t| && Expanded(tail, fields).Ok?
    ensures Writable(piece) && PieceValue(piece, fields).Ok? && Written([piece]) == front
  {
    var length := ReadFront(t, fields).length;
    front, tail := t[..length], t[length..];
    piece := FrontIsWritten(t, length, fields);
  }

  lemma OneMorePiece(piece: Piece, rest: seq<Piece>, front: string, tail: string, fields: Fields) returns (pieces: seq<Piece>)
    requires Writable(piece) && PieceValue(piece, fields).Ok? && HaveValues(rest, fields)
    requires Written([piece]) == front && Written(rest) == tail
    ensures HaveValues(pieces, fields) && Written(pieces) == front + tail
  {
    pieces := [piece] + rest;
    assert pieces[0] == piece && pieces[1..] == rest;
    OnePiece(piece);
  }

  lemma FrontIsWritten(t: string, length: nat, fields: Fields) returns (piece: Piece)
    requires t != "" && ReadFront(t, fields).Emit? && length == ReadFront(t, fields).length
    ensures Writable(piece) && PieceValue(piece, fields).Ok? && Written([piece]) == t[..length]
  {
    if t[0] == '{' && !(|t| > 1 && t[1] == '{') {
      piece := FieldIsWritten(t, length, fields);
    } else {
      piece := Text([t[0]]);
      OnePiece(piece);
      OneEscaped(t[0]);
      assert t[..length] == EscapedChar(t[0]);
    }
  }

  lemma OneEscaped(c: char)
    ensures Escaped([c]) == EscapedChar(c)
  {
    assert [c][1..] == "" && Escaped("") == "" && EscapedChar(c) + "" == EscapedChar(c);
  }

  lemma FieldIsWritten(t: string, length: nat, fields: Fields) returns (piece: Piece)
    requires t != "" && t[0] == '{' && Substitute(t[1..], fields).Emit? && length == Substitute(t[1..], fields).length + 1
    ensures Writable(piece) && PieceValue(piece, fields).Ok? && Written([piece]) == t[..length]
  {
    var rest := t[1..];
    var close := Find(rest, '}', 0);
    var placeholder := rest[..close];
    piece := Field(placeholder);
    FieldNeedsName(placeholder, fields);
    OnePiece(piece);
    assert rest[..close + 1] == placeholder + "}" && t[..length] == "{" + rest[..close + 1];
  }

  lemma OnePiece(piece: Piece)
    ensures Written([piece]) == match piece case Text(text) => Escaped(text) case Field(placeholder) => InBraces(placeholder)
  {
    assert [piece][1..] == [] && Written([]) == "";
  }

  lemma FieldNeedsName(placeholder: string, fields: Fields)
    requires FieldValue(placeholder, fields).Ok?
    ensures placeholder != "" && placeholder[0] != '{'
  {
    var name := placeholder[..Find(placeholder, ':', 0)];
    assert name != "" && name[0] != '{' && placeholder[0] == name[0];
  }

  /** What a placeholder stands for: a name, with or without a colon and a specifier. */
  lemma PlaceholderMeans(name: string, spec: string, placeholder: string, fields: Fields)
    requires ':' !in name && (placeholder == name + (":" + spec) || (placeholder == name && spec == ""))
    ensures name == "chunk_index" ==> FieldValue(placeholder, fields) == Formatted(fields.chunk, spec)
    ensures name == "file_index" ==> FieldValue(placeholder, fields) == Formatted(fields.file, spec)
    ensures name == "video_key" && fields.hasKey && spec == "" ==> FieldValue(placeholder, fields) == Ok(fields.key)
    ensures name == "video_key" && (!fields.hasKey || spec != "") ==> FieldValue(placeholder, fields) == Error
    ensures name != "chunk_index" && name != "file_index" && name != "video_key" ==> FieldValue(placeholder, fields) == Error
  {
    if placeholder == name + (":" + spec) {
      NoColon(name, ":" + spec);
      assert placeholder[..|name|] == name && placeholder[|name| + 1..] == spec;
    } else {
      assert placeholder[..|name|] == name;
    }
  }

  // COPY's templates ---------------------------------------------------------------------------------

  lemma {:induction false} ExpandedPlain(text: string, rest: string, fields: Fields)
    requires '{' !in text && '}' !in text
    ensures Expanded(text + rest, fields) == Prepend(text, Expanded(rest, fields))
  {
    PlainText(text);
    ExpandedText(text, rest, fields);
  }

  lemma {:induction false} PlainText(text: string)
    requires '{' !in text && '}' !in text
    ensures Escaped(text) == text
  {
    if text != "" {
      PlainText(text[1..]);
      assert [text[0]] + text[1..] == text;
    }
  }

  lemma NoColon(name: string, rest: string)
    requires ':' !in name && |rest| > 0 && rest[0] == ':'
    ensures Find(name + rest, ':', 0) == |name|
  {
    assert (name + rest)[|name|] == ':';
    assert forall j :: 0 <= j < |name| ==> (name + rest)[j] == name[j];
  }

  lemma IndexField(name: string, fields: Fields)
    requires name == "chunk_index" || name == "file_index"
    requires fields.chunk >= 0 && fields.file >= 0
    ensures FieldValue(name + ":03d", fields) == Ok(PadIndex(if name == "chunk_index" then fields.chunk else fields.file))
  {
    var placeholder := name + ":03d";
    NoColon(name, ":03d");
    assert placeholder[..|name|] == name && placeholder[|name| + 1..] == "03d";
    ThreeDigitsPad(if name == "chunk_index" then fields.chunk else fields.file);
  }

  lemma KeyField(key: string, fields: Fields)
    requires fields.hasKey && fields.key == key
    ensures FieldValue("video_key", fields) == Ok(key)
  {
    assert Find("video_key", ':', 0) == 9;
    assert "video_key"[..9] == "video_key";
  }

  const DATA_PATH := "data" + ChunkTemplate(".parquet")
  const VIDEO_PATH := "videos/" + (InBraces("video_key") + ChunkTemplate(".mp4"))

  /** The part of both templates after the directory: /chunk-{chunk_index:03d}/file-{file_index:03d} and
      the suffix. */
  function ChunkTemplate(suffix: string): string {
    "/chunk-" + (InBraces("chunk_index" + ":03d") + FileTemplate(suffix))
  }

  function FileTemplate(suffix: string): string {
    "/" + ("file-" + (InBraces("file_index" + ":03d") + suffix))
  }

  lemma FileExpands(suffix: string, fields: Fields)
    requires fields.chunk >= 0 && fields.file >= 0 && Expanded(suffix, fields) == Ok(suffix)
    ensures Expanded(FileTemplate(suffix), fields) == Ok("/" + ("file-" + (PadIndex(fields.file) + suffix)))
  {
    var rest := InBraces("file_index" + ":03d") + suffix;
    IndexField("file_index", fields);
    WritableIndex("file_index");
    ExpandedField("file_index" + ":03d", suffix, fields);
    ExpandedPlain("file-", rest, fields);
    ExpandedPlain("/", "file-" + rest, fields);
  }

  lemma WritableIndex(name: string)
    requires name == "chunk_index" || name == "file_index"
    ensures Writable(Field(name + ":03d"))
  {
    assert (name + ":03d")[0] == name[0];
  }

  lemma ChunkExpands(suffix: string, fields: Fields)
    requires fields.chunk >= 0 && fields.file >= 0 && Expanded(suffix, fields) == Ok(suffix)
    ensures Expanded(ChunkTemplate(suffix), fields) ==
            Ok("/chunk-" + (PadIndex(fields.chunk) + ("/" + ("file-" + (PadIndex(fields.file) + suffix)))))
  {
    var rest := FileTemplate(suffix);
    FileExpands(suffix, fields);
    IndexField("chunk_index", fields);
    WritableIndex("chunk_index");
    ExpandedField("chunk_index" + ":03d", rest, fields);
    ExpandedPlain("/chunk-", InBraces("chunk_index" + ":03d") + rest, fields);
  }

  lemma SuffixExpands(suffix: string, fields: Fields)
    requires '{' !in suffix && '}' !in suffix
    ensures Expanded(suffix, fields) == Ok(suffix)
  {
    ExpandedPlain(suffix, "", fields);
    assert suffix + "" == suffix;
  }

  /** For all indices, the data path of info.json expands to the path COPY wrote. */
  lemma DataPathRoundTrip(chunk: nat, file: nat)
    ensures Expanded(DATA_PATH, Fields(chunk, file, false, "")) == Ok(DataRelativePath(chunk, file))
  {
    var fields := Fields(chunk, file, false, "");
    SuffixExpands(".parquet", fields);
    ChunkExpands(".parquet", fields);
    ExpandedPlain("data", ChunkTemplate(".parquet"), fields);
  }

  /** So does the video path, whatever the key. */
  lemma VideoPathRoundTrip(key: string, chunk: nat, file: nat)
    ensures Expanded(VIDEO_PATH, Fields(chunk, file, true, key)) == Ok(VideoRelativePath(key, chunk, file))
  {
    var fields := Fields(chunk, file, true, key);
    var rest := ChunkTemplate(".mp4");
    SuffixExpands(".mp4", fields);
    ChunkExpands(".mp4", fields);
    KeyExpands(key, rest, fields);
    ExpandedPlain("videos/", InBraces("video_key") + rest, fields);
    PrependTwice("videos/", key, Expanded(rest, fields));
  }

  lemma KeyExpands(key: string, rest: string, fields: Fields)
    requires fields.hasKey && fields.key == key
    ensures Expanded(InBraces("video_key") + rest, fields) == Prepend(key, Expanded(rest, fields))
  {
    KeyField(key, fields);
    ExpandedField("video_key", rest, fields);
  }
}
