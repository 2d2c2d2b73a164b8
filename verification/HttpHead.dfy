/** The request head of the Cedar decision point: request line, header fields and announced body length. */
module HttpHead {
  import opened Common
  import opened Text
  import Decimal

  const MAX_DOCUMENT_BYTES: nat := 64 * 1024

  datatype ReadError = BadRequest | LengthRequired | PayloadTooLarge

  datatype Uri = Uri(text: string, hasScheme: bool, hasAuthority: bool)

  /** Syntax checks of the `http` crate, and UTF-8 decoding. `fieldName` also lower-cases. */
  datatype Library = Library(
    utf8: Bytes -> Option<string>,
    isVerb: string -> bool,
    uri: string -> Option<Uri>,
    fieldName: string -> Option<string>)

  datatype Head = Head(verb: string, uri: Uri, fields: seq<(string, string)>)

  /** `str::split("\r\n")`. */
  function Lines(s: string): (r: seq<string>)
    ensures r != []
  {
    if s == [] then [[]]
    else if |s| >= 2 && s[0] == '\r' && s[1] == '\n' then [[]] + Lines(s[2..])
    else var rest := Lines(s[1..]); [[s[0]] + rest[0]] + rest[1..]
  }

  function Unlines(lines: seq<string>): string
    requires lines != []
  {
    if |lines| == 1 then lines[0] else lines[0] + "\r\n" + Unlines(lines[1..])
  }

  predicate HasCrlf(s: string) {
    exists i :: 0 <= i < |s| - 1 && s[i] == '\r' && s[i + 1] == '\n'
  }

  /** The lines, with their line ends put back, are the text. */
  lemma {:induction false} UnlinesOfLines(s: string)
    ensures Unlines(Lines(s)) == s
  {
    if s == [] {
    } else if |s| >= 2 && s[0] == '\r' && s[1] == '\n' {
      UnlinesOfLines(s[2..]);
      assert Lines(s)[1..] == Lines(s[2..]);
      assert s == [] + "\r\n" + s[2..];
    } else {
      UnlinesOfLines(s[1..]);
      assert Lines(s)[1..] == Lines(s[1..])[1..];
      assert s == [s[0]] + s[1..];
    }
  }

  lemma FirstLineStartsTheText(s: string)
    ensures s != [] && Lines(s)[0] != [] ==> Lines(s)[0][0] == s[0]
    ensures s == [] ==> Lines(s)[0] == []
  {
  }

  /** No line contains a line end. */
  lemma {:induction false} LinesAreCut(s: string)
    ensures forall i :: 0 <= i < |Lines(s)| ==> !HasCrlf(Lines(s)[i])
  {
    if s == [] {
    } else if |s| >= 2 && s[0] == '\r' && s[1] == '\n' {
      LinesAreCut(s[2..]);
    } else {
      LinesAreCut(s[1..]);
      FirstLineStartsTheText(s[1..]);
      PrependKeepsCut(s[0], Lines(s[1..])[0]);
    }
  }

  lemma PrependKeepsCut(c: char, line: string)
    requires !HasCrlf(line) && !(c == '\r' && line != [] && line[0] == '\n')
    ensures !HasCrlf([c] + line)
  {
    var first := [c] + line;
    forall i | 0 <= i < |first| - 1 ensures !(first[i] == '\r' && first[i + 1] == '\n') {
      if i > 0 {
        assert line[i - 1] == first[i] && line[i - 1 + 1] == first[i + 1];
      }
    }
  }

  /** Lines without line ends, put together, are cut apart again. */
  lemma {:induction false} LinesOfUnlines(lines: seq<string>)
    requires lines != [] && forall i :: 0 <= i < |lines| ==> !HasCrlf(lines[i])
    ensures Lines(Unlines(lines)) == lines
    decreases |Unlines(lines)|
  {
    var s := Unlines(lines);
    if lines[0] == [] {
      if |lines| > 1 {
        assert s[2..] == Unlines(lines[1..]);
        LinesOfUnlines(lines[1..]);
      }
    } else {
      var line := lines[0][1..];
      var shorter := [line] + lines[1..];
      assert lines[0] == [s[0]] + line && s[1..] == Unlines(shorter);
      TailHasNoCrlf(lines[0]);
      LinesOfUnlines(shorter);
      assert line != [] ==> !(lines[0][0] == '\r' && lines[0][0 + 1] == '\n');
    }
  }

  lemma TailHasNoCrlf(line: string)
    requires line != [] && !HasCrlf(line)
    ensures !HasCrlf(line[1..])
  {
    forall i | 0 <= i < |line[1..]| - 1 ensures !(line[1..][i] == '\r' && line[1..][i + 1] == '\n') {
      assert !(line[i + 1] == '\r' && line[i + 1 + 1] == '\n');
    }
  }

  // ---------------------------------------------------------------- the request line

  predicate IsAsciiSpace(c: char) {
    c as int in {32, 9, 10, 12, 13}
  }

  predicate IsWord(w: string) {
    w != [] && forall c :: c in w ==> !IsAsciiSpace(c)
  }

  /** `str::split_ascii_whitespace`. */
  function Words(s: string): (r: seq<string>)
    ensures s != [] && !IsAsciiSpace(s[0]) ==> r != []
    ensures forall i :: 0 <= i < |r| ==> IsWord(r[i])
  {
    if s == [] then []
    else if IsAsciiSpace(s[0]) then Words(s[1..])
    else if |s| == 1 || IsAsciiSpace(s[1]) then [[s[0]]] + Words(s[1..])
    else
      var rest := Words(s[1..]);
      var first := [s[0]] + rest[0];
      assert IsWord(rest[0]) && forall c :: c in first ==> c == s[0] || c in rest[0];
      [first] + rest[1..]
  }

  predicate IsGap(s: string) {
    forall c :: c in s ==> IsAsciiSpace(c)
  }

  /** Gaps and words in turn, with a gap at both ends. */
  function Weave(gaps: seq<string>, words: seq<string>): string
    requires |gaps| == |words| + 1
  {
    if words == [] then gaps[0] else gaps[0] + words[0] + Weave(gaps[1..], words[1..])
  }

  /** Every gap is whitespace, and the gaps between two words are not empty. */
  predicate Separates(gaps: seq<string>, words: seq<string>) {
    && |gaps| == |words| + 1
    && (forall i :: 0 <= i < |gaps| ==> IsGap(gaps[i]))
    && (forall i :: 0 < i < |words| ==> gaps[i] != [])
  }

  lemma GapGrows(c: char, gaps: seq<string>, words: seq<string>)
    requires Separates(gaps, words) && IsAsciiSpace(c)
    ensures var more := [[c] + gaps[0]] + gaps[1..];
            Separates(more, words) && Weave(more, words) == [c] + Weave(gaps, words)
  {
    var more := [[c] + gaps[0]] + gaps[1..];
    assert more[1..] == gaps[1..];
    if words != [] {
      var rest := Weave(gaps[1..], words[1..]);
      assert [c] + gaps[0] + words[0] + rest == [c] + (gaps[0] + words[0] + rest);
    }
  }

  lemma WordStarts(c: char, gaps: seq<string>, words: seq<string>)
    requires Separates(gaps, words) && (words == [] || gaps[0] != [])
    ensures Separates([[]] + gaps, [[c]] + words) && Weave([[]] + gaps, [[c]] + words) == [c] + Weave(gaps, words)
  {
    assert ([[]] + gaps)[1..] == gaps && ([[c]] + words)[1..] == words;
  }

  lemma WordGrows(c: char, gaps: seq<string>, words: seq<string>)
    requires Separates(gaps, words) && words != [] && gaps[0] == []
    ensures var more := [[c] + words[0]] + words[1..];
            Separates(gaps, more) && Weave(gaps, more) == [c] + Weave(gaps, words)
  {
    var more := [[c] + words[0]] + words[1..];
    assert more[1..] == words[1..];
    var rest := Weave(gaps[1..], words[1..]);
    assert gaps[0] + ([c] + words[0]) + rest == [c] + (gaps[0] + words[0] + rest);
  }

  /** Every line is its words with whitespace around and between them. */
  lemma {:induction false} LineOfWords(s: string) returns (gaps: seq<string>)
    ensures Separates(gaps, Words(s)) && Weave(gaps, Words(s)) == s
    ensures s != [] ==> (gaps[0] == [] <==> !IsAsciiSpace(s[0]))
  {
    if s == [] {
      gaps := [[]];
    } else {
      var rest := LineOfWords(s[1..]);
      var words := Words(s[1..]);
      assert s == [s[0]] + s[1..];
      if IsAsciiSpace(s[0]) {
        GapGrows(s[0], rest, words);
        gaps := [[s[0]] + rest[0]] + rest[1..];
      } else if |s| == 1 || IsAsciiSpace(s[1]) {
        WordStarts(s[0], rest, words);
        gaps := [[]] + rest;
      } else {
        WordGrows(s[0], rest, words);
        gaps := rest;
      }
    }
  }

  lemma {:induction false} GapIsSkipped(gap: string, s: string)
    requires IsGap(gap)
    ensures Words(gap + s) == Words(s)
  {
    if gap == [] {
      assert gap + s == s;
    } else {
      assert (gap + s)[1..] == gap[1..] + s;
      GapIsSkipped(gap[1..], s);
    }
  }

  lemma {:induction false} WordIsTaken(word: string, s: string)
    requires IsWord(word) && (s == [] || IsAsciiSpace(s[0]))
    ensures Words(word + s) == [word] + Words(s)
  {
    var t := word + s;
    assert t[1..] == word[1..] + s && !IsAsciiSpace(t[0]);
    if |word| == 1 {
      assert t[1..] == s && [t[0]] == word;
    } else {
      assert word[1] in word;
      WordIsTaken(word[1..], s);
      assert word == [word[0]] + word[1..];
    }
  }

  /** Words with whitespace around and between them are found again, whatever the whitespace. */
  lemma {:induction false} WordsOfLine(gaps: seq<string>, words: seq<string>)
    requires Separates(gaps, words) && forall i :: 0 <= i < |words| ==> IsWord(words[i])
    ensures Words(Weave(gaps, words)) == words
  {
    if words == [] {
      assert gaps[0] + [] == gaps[0];
      GapIsSkipped(gaps[0], []);
    } else {
      var rest := Weave(gaps[1..], words[1..]);
      assert IsGap(gaps[1]);
      assert gaps[0] + words[0] + rest == gaps[0] + (words[0] + rest);
      GapIsSkipped(gaps[0], words[0] + rest);
      WordIsTaken(words[0], rest);
      WordsOfLine(gaps[1..], words[1..]);
    }
  }

  // ---------------------------------------------------------------- header fields

  /** `str::split_once(':')`. */
  function SplitColon(s: string): (r: Option<(string, string)>)
    ensures r.None? <==> ':' !in s
    ensures r.Some? ==> s == r.value.0 + ":" + r.value.1 && ':' !in r.value.0
  {
    if s == [] then None
    else if s[0] == ':' then Some(([], s[1..]))
    else match SplitColon(s[1..])
      case None => None
      case Some((left, right)) => Some(([s[0]] + left, right))
  }

  lemma {:induction false} SplitOfJoin(left: string, right: string)
    requires ':' !in left
    ensures SplitColon(left + ":" + right) == Some((left, right))
  {
    var s := left + ":" + right;
    if left == [] {
      assert s[1..] == right;
    } else {
      SplitOfJoin(left[1..], right);
      assert s[1..] == left[1..] + ":" + right;
      assert left == [left[0]] + left[1..];
    }
  }

  /** `HeaderValue::from_str`: visible ASCII, space and tab. */
  predicate IsFieldValue(s: string) {
    forall c :: c in s ==> 32 <= c as int < 127 || c as int == 9
  }

  function ParseField(lib: Library, line: string): Option<(string, string)> {
    match SplitColon(line)
    case None => None
    case Some((name, value)) =>
      match lib.fieldName(name)
      case None => None
      case Some(lower) => if IsFieldValue(Trim(value)) then Some((lower, Trim(value))) else None
  }

  function ParseFields(lib: Library, lines: seq<string>): Option<seq<(string, string)>> {
    if lines == [] then Some([]) else
      match (ParseFields(lib, lines[..|lines| - 1]), ParseField(lib, lines[|lines| - 1]))
      case (Some(fields), Some(field)) => Some(fields + [field])
      case _ => None
  }

  function ValuesOf(fields: seq<(string, string)>, name: string): seq<string> {
    if fields == [] then [] else
      (if fields[0].0 == name then [fields[0].1] else []) + ValuesOf(fields[1..], name)
  }

  function ParseRequestLine(lib: Library, line: string): Option<(string, Uri)> {
    var words := Words(line);
    if |words| != 3 || (words[2] != "HTTP/1.0" && words[2] != "HTTP/1.1") || !lib.isVerb(words[0]) then None
    else match lib.uri(words[1])
      case None => None
      case Some(uri) => if uri.hasScheme || uri.hasAuthority then None else Some((words[0], uri))
  }

  function ParseHead(lib: Library, bytes: Bytes): Result<Head, ReadError> {
    match lib.utf8(bytes)
    case None => Err(BadRequest)
    case Some(text) =>
      var lines := Lines(text);
      match (ParseRequestLine(lib, lines[0]), ParseFields(lib, lines[1..]))
      case (Some((verb, uri)), Some(fields)) =>
        if ValuesOf(fields, "transfer-encoding") != [] || |ValuesOf(fields, "host")| != 1 then Err(BadRequest)
        else Ok(Head(verb, uri, fields))
      case _ => Err(BadRequest)
  }

  /** `str::parse::<usize>`: a leading plus sign is accepted. */
  function ParseUsize(s: string): Option<nat> {
    var digits := if s != [] && s[0] == '+' then s[1..] else s;
    if digits == [] || !Decimal.AllDigits(digits) || Decimal.Value(digits) > U64_MAX then None
    else Some(Decimal.Value(digits))
  }

  /** `single_content_length` and the bound on it. */
  function BodyLength(head: Head): Result<nat, ReadError> {
    var values := ValuesOf(head.fields, "content-length");
    if values == [] then Err(LengthRequired)
    else if |values| > 1 then Err(BadRequest)
    else match ParseUsize(values[0])
      case None => Err(BadRequest)
      case Some(n) => if n > MAX_DOCUMENT_BYTES then Err(PayloadTooLarge) else Ok(n)
  }

  /** The parsed head and the length of the body it announces. */
  function HeadAndLength(lib: Library, bytes: Bytes): Result<(Head, nat), ReadError> {
    match ParseHead(lib, bytes)
    case Err(error) => Err(error)
    case Ok(head) =>
      match BodyLength(head)
      case Err(error) => Err(error)
      case Ok(n) => Ok((head, n))
  }

  /** The loop over header lines, as the reader runs it: one field for each line, in order, or nothing
      when any line is bad. */
  method CollectFields(lib: Library, lines: seq<string>) returns (r: Option<seq<(string, string)>>)
    ensures r == ParseFields(lib, lines)
    ensures r.Some? <==> forall i :: 0 <= i < |lines| ==> ParseField(lib, lines[i]).Some?
    ensures r.Some? ==> |r.value| == |lines| && forall i :: 0 <= i < |lines| ==> ParseField(lib, lines[i]) == Some(r.value[i])
  {
    var fields: seq<(string, string)> := [];
    for i := 0 to |lines|
      invariant |fields| == i && forall j :: 0 <= j < i ==> ParseField(lib, lines[j]) == Some(fields[j])
    {
      var field := ParseField(lib, lines[i]);
      if field.None? {
        FieldsArePointwise(lib, lines);
        return None;
      }
      fields := fields + [field.value];
    }
    FieldsArePointwise(lib, lines);
    assert ParseFields(lib, lines).value == fields;
    return Some(fields);
  }

  lemma {:induction false} FieldsArePointwise(lib: Library, lines: seq<string>)
    ensures ParseFields(lib, lines).Some? <==> forall i :: 0 <= i < |lines| ==> ParseField(lib, lines[i]).Some?
    ensures ParseFields(lib, lines).Some? ==>
              && |ParseFields(lib, lines).value| == |lines|
              && forall i :: 0 <= i < |lines| ==> ParseField(lib, lines[i]) == Some(ParseFields(lib, lines).value[i])
  {
    if lines != [] {
      var n := |lines| - 1;
      FieldsArePointwise(lib, lines[..n]);
      assert forall i :: 0 <= i < n ==> lines[..n][i] == lines[i];
    }
  }

  // ---------------------------------------------------------------- the printed head

  /** The name, a colon, a margin and the value. */
  function RenderField(margin: string, field: (string, string)): string {
    field.0 + ":" + margin + field.1
  }

  function RequestLine(head: Head): string {
    head.verb + " " + head.uri.text + " " + "HTTP/1.1"
  }

  function FieldLines(margin: string, fields: seq<(string, string)>): seq<string> {
    seq(|fields|, i requires 0 <= i < |fields| => RenderField(margin, fields[i]))
  }

  /** The request line and one line for each field. */
  function HeadText(margin: string, head: Head): string {
    Unlines([RequestLine(head)] + FieldLines(margin, head.fields))
  }

  function Render(head: Head): Bytes {
    Utf8(HeadText(" ", head))
  }

  /** Any whitespace, other than a carriage return. */
  predicate IsMargin(margin: string) {
    All(IsWhitespace, margin) && '\r' !in margin
  }

  /** UTF-8 decoding undoes encoding. */
  ghost predicate DecodesUtf8(lib: Library) {
    forall s :: lib.utf8(Utf8(s)) == Some(s)
  }

  predicate RenderableField(lib: Library, field: (string, string)) {
    && lib.fieldName(field.0) == Some(field.0) && ':' !in field.0 && '\r' !in field.0
    && IsFieldValue(field.1) && Trim(field.1) == field.1
  }

  /** The reader's library accepts every part; the target is in origin form; there is one Host field and
      no Transfer-Encoding. */
  predicate Renderable(lib: Library, head: Head) {
    && lib.isVerb(head.verb) && IsWord(head.verb)
    && lib.uri(head.uri.text) == Some(head.uri) && IsWord(head.uri.text)
    && !head.uri.hasScheme && !head.uri.hasAuthority
    && (forall i :: 0 <= i < |head.fields| ==> RenderableField(lib, head.fields[i]))
    && |ValuesOf(head.fields, "host")| == 1 && ValuesOf(head.fields, "transfer-encoding") == []
  }

  lemma WithoutCrHasNoCrlf(s: string)
    requires '\r' !in s
    ensures !HasCrlf(s)
  {
    forall i | 0 <= i < |s| - 1 ensures s[i] != '\r' {
      assert s[i] in s;
    }
  }

  lemma RequestLineRoundTrip(lib: Library, head: Head)
    requires Renderable(lib, head)
    ensures ParseRequestLine(lib, RequestLine(head)) == Some((head.verb, head.uri))
    ensures !HasCrlf(RequestLine(head))
  {
    var gaps, words := [[], " ", " ", []], [head.verb, head.uri.text, "HTTP/1.1"];
    assert IsWord("HTTP/1.1");
    WeaveOfThree(head.verb, head.uri.text, "HTTP/1.1");
    WordsOfLine(gaps, words);
    PlainRequestLine(lib, head);
    WithoutCrHasNoCrlf(RequestLine(head));
  }

  lemma PlainRequestLine(lib: Library, head: Head)
    requires Renderable(lib, head)
    ensures IsPlainLine(RequestLine(head))
  {
    forall c | c in RequestLine(head) ensures c != '\r' {
      assert c in head.verb || c in head.uri.text || c in "HTTP/1.1" || c == ' ';
    }
  }

  lemma WeaveOfThree(a: string, b: string, c: string)
    ensures Weave([[], " ", " ", []], [a, b, c]) == a + " " + b + " " + c
  {
    var gaps, words := [[], " ", " ", []], [a, b, c];
    assert gaps[1..][1..][1..] == [[]] && words[1..][1..][1..] == [];
    assert Weave(gaps[1..][1..][1..], []) == [];
    assert Weave(gaps[1..][1..], words[1..][1..]) == " " + c;
    assert Weave(gaps[1..], words[1..]) == " " + b + (" " + c);
  }

  lemma MarginIsTrimmed(margin: string, value: string)
    requires All(IsWhitespace, margin) && Trim(value) == value
    ensures Trim(margin + value) == value
  {
    if value == [] {
      StripAll(margin);
      assert margin + value == margin;
    } else {
      StrippedEnds(value);
      StripOf(IsWhitespace, margin, value, []);
      assert margin + value + [] == margin + value;
    }
  }

  lemma {:induction false} StripAll(margin: string)
    requires All(IsWhitespace, margin)
    ensures Trim(margin) == []
  {
    if margin != [] {
      assert margin[0] in margin;
      forall c | c in margin[1..] ensures IsWhitespace(c) {
        assert c in margin;
      }
      StripAll(margin[1..]);
    }
  }

  /** What trimming leaves alone starts and ends with something else than whitespace. */
  lemma StrippedEnds(value: string)
    requires Trim(value) == value && value != []
    ensures !IsWhitespace(value[0]) && !IsWhitespace(value[|value| - 1])
  {
    assert |StripStart(IsWhitespace, value)| == |value|;
  }

  lemma FieldRoundTrip(lib: Library, margin: string, field: (string, string))
    requires RenderableField(lib, field) && IsMargin(margin)
    ensures ParseField(lib, RenderField(margin, field)) == Some(field)
    ensures !HasCrlf(RenderField(margin, field))
  {
    var line := RenderField(margin, field);
    assert line == field.0 + ":" + (margin + field.1);
    SplitOfJoin(field.0, margin + field.1);
    MarginIsTrimmed(margin, field.1);
    PlainFieldLine(lib, margin, field);
    WithoutCrHasNoCrlf(line);
  }

  lemma FieldLinesRoundTrip(lib: Library, margin: string, fields: seq<(string, string)>)
    requires IsMargin(margin) && forall i :: 0 <= i < |fields| ==> RenderableField(lib, fields[i])
    ensures ParseFields(lib, FieldLines(margin, fields)) == Some(fields)
    ensures forall i :: 0 <= i < |fields| ==> !HasCrlf(FieldLines(margin, fields)[i])
  {
    var lines := FieldLines(margin, fields);
    forall i | 0 <= i < |lines| ensures ParseField(lib, lines[i]) == Some(fields[i]) && !HasCrlf(lines[i]) {
      FieldRoundTrip(lib, margin, fields[i]);
    }
    FieldsArePointwise(lib, lines);
    assert ParseFields(lib, lines).value == fields;
  }

  lemma HeadFromLines(lib: Library, bytes: Bytes, text: string, first: string, rest: seq<string>, head: Head)
    requires lib.utf8(bytes) == Some(text) && Lines(text) == [first] + rest
    requires ParseRequestLine(lib, first) == Some((head.verb, head.uri)) && ParseFields(lib, rest) == Some(head.fields)
    requires |ValuesOf(head.fields, "host")| == 1 && ValuesOf(head.fields, "transfer-encoding") == []
    ensures ParseHead(lib, bytes) == Ok(head)
  {
    assert ([first] + rest)[1..] == rest;
  }

  /** Reading a head undoes printing it, whatever whitespace the printer puts before the values. */
  lemma HeadRoundTrip(lib: Library, margin: string, head: Head)
    requires DecodesUtf8(lib) && IsMargin(margin) && Renderable(lib, head)
    ensures ParseHead(lib, Utf8(HeadText(margin, head))) == Ok(head)
  {
    var first, rest := RequestLine(head), FieldLines(margin, head.fields);
    RequestLineRoundTrip(lib, head);
    FieldLinesRoundTrip(lib, margin, head.fields);
    LinesOfUnlines([first] + rest);
    HeadFromLines(lib, Utf8(HeadText(margin, head)), Unlines([first] + rest), first, rest, head);
  }

  // ---------------------------------------------------------------- where a printed head ends

  predicate IsPlainLine(line: string) {
    line != [] && '\r' !in line
  }

  /** In the bytes of non-empty lines no blank line appears: after a line end comes another line. */
  predicate HasNoBlankLine(bytes: Bytes) {
    forall q :: 0 <= q < |bytes| && bytes[q] == 13 ==> q + 2 < |bytes| && bytes[q + 2] != 13
  }

  lemma PlainLineBytes(line: string)
    requires IsPlainLine(line)
    ensures Utf8(line) != [] && 13 !in Utf8(line)
  {
    Utf8Without(line, 13);
  }

  lemma BytesOfLines(line: string, rest: string)
    ensures Utf8(line + "\r\n" + rest) == Utf8(line) + [13, 10] + Utf8(rest)
  {
    assert line + "\r\n" + rest == line + ("\r\n" + rest);
    Utf8Concat(line, "\r\n" + rest);
    Utf8Concat("\r\n", rest);
    assert "\r\n"[1..] == "\n" && "\n"[1..] == "";
    assert Utf8("\n") == [10] && Utf8("\r\n") == [13, 10];
  }

  lemma OneMoreLine(line: Bytes, rest: Bytes)
    requires line != [] && 13 !in line && HasNoBlankLine(rest) && rest != [] && rest[0] != 13
    ensures HasNoBlankLine(line + [13, 10] + rest)
  {
    var bytes, k := line + [13, 10] + rest, |line| + 2;
    forall q | 0 <= q < |line| ensures bytes[q] != 13 {
      assert bytes[q] == line[q] && line[q] in line;
    }
    forall q | 0 <= q < |bytes| && bytes[q] == 13 ensures q + 2 < |bytes| && bytes[q + 2] != 13 {
      if q >= k {
        assert bytes[q] == rest[q - k];
        assert bytes[q + 2] == rest[q - k + 2];
      }
    }
  }

  lemma {:induction false} LinesHaveNoBlankLine(lines: seq<string>)
    requires lines != [] && forall i :: 0 <= i < |lines| ==> IsPlainLine(lines[i])
    ensures var bytes := Utf8(Unlines(lines)); HasNoBlankLine(bytes) && bytes != [] && bytes[0] != 13
  {
    PlainLineBytes(lines[0]);
    assert Utf8(lines[0])[0] in Utf8(lines[0]);
    if |lines| > 1 {
      LinesHaveNoBlankLine(lines[1..]);
      BytesOfLines(lines[0], Unlines(lines[1..]));
      OneMoreLine(Utf8(lines[0]), Utf8(Unlines(lines[1..])));
    }
  }

  lemma HeadHasNoBlankLine(lib: Library, margin: string, head: Head)
    requires Renderable(lib, head) && IsMargin(margin)
    ensures HasNoBlankLine(Utf8(HeadText(margin, head)))
  {
    PlainRequestLine(lib, head);
    forall i | 0 <= i < |head.fields| ensures IsPlainLine(FieldLines(margin, head.fields)[i]) {
      PlainFieldLine(lib, margin, head.fields[i]);
    }
    LinesHaveNoBlankLine([RequestLine(head)] + FieldLines(margin, head.fields));
  }

  lemma PlainFieldLine(lib: Library, margin: string, field: (string, string))
    requires RenderableField(lib, field) && IsMargin(margin)
    ensures IsPlainLine(RenderField(margin, field))
  {
    forall c | c in RenderField(margin, field) ensures c != '\r' {
      assert c in field.0 || c == ':' || c in margin || c in field.1;
    }
  }

  // ---------------------------------------------------------------- one printed head

  const HOST_FIELD := ("host", "a")
  const LENGTH_FIELD := ("content-length", "0")
  /** A head that announces an empty body. */
  const EMPTY_POST := Head("POST", Uri("/", false, false), [HOST_FIELD, LENGTH_FIELD])

  /** The library knows the method, the target and the names of that head. */
  predicate Accepts(lib: Library) {
    && lib.isVerb("POST") && lib.uri("/") == Some(Uri("/", false, false))
    && lib.fieldName("host") == Some("host") && lib.fieldName("content-length") == Some("content-length")
  }

  lemma ValuesOfTwo(a: (string, string), b: (string, string), name: string)
    ensures ValuesOf([a, b], name) == (if a.0 == name then [a.1] else []) + if b.0 == name then [b.1] else []
  {
    assert [a, b][1..] == [b] && [b][1..] == [];
    assert ValuesOf([], name) == [];
    assert ValuesOf([b], name) == (if b.0 == name then [b.1] else []) + [];
  }

  lemma EmptyPostFields()
    ensures var fields := EMPTY_POST.fields;
            && ValuesOf(fields, "host") == ["a"] && ValuesOf(fields, "transfer-encoding") == []
            && ValuesOf(fields, "content-length") == ["0"]
  {
    assert |"host"| == 4 && |"content-length"| == 14 && |"transfer-encoding"| == 17;
    ValuesOfTwo(HOST_FIELD, LENGTH_FIELD, "host");
    ValuesOfTwo(HOST_FIELD, LENGTH_FIELD, "transfer-encoding");
    ValuesOfTwo(HOST_FIELD, LENGTH_FIELD, "content-length");
  }

  lemma EmptyPostIsRenderable(lib: Library)
    requires Accepts(lib)
    ensures Renderable(lib, EMPTY_POST) && BodyLength(EMPTY_POST) == Ok(0)
  {
    EmptyPostFields();
    assert RenderableField(lib, HOST_FIELD);
    assert RenderableField(lib, LENGTH_FIELD);
    assert Decimal.Value("0") == 0;
  }

  lemma EmptyPostText()
    ensures |HeadText(" ", EMPTY_POST)| <= 200 && forall c :: c in HeadText(" ", EMPTY_POST) ==> c as int < 0x80
  {
    var first, rest := RequestLine(EMPTY_POST), FieldLines(" ", EMPTY_POST.fields);
    var host, length := RenderField(" ", HOST_FIELD), RenderField(" ", LENGTH_FIELD);
    assert rest == [host, length];
    TextOfThree(first, host, length);
    assert [first] + rest == [first, host, length];
  }

  lemma TextOfThree(a: string, b: string, c: string)
    ensures Unlines([a, b, c]) == a + "\r\n" + (b + "\r\n" + c)
  {
    var lines := [a, b, c];
    assert lines[1..] == [b, c] && lines[1..][1..] == [c];
    assert Unlines([c]) == c && Unlines([b, c]) == b + "\r\n" + c;
  }
}
