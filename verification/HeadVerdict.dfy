/** Which heads, and which byte streams, the Cedar decision point accepts: said of the text itself. */
module HeadVerdict {
  import opened Common
  import opened Text
  import opened HttpHead
  import opened ContentLength
  import PdpReader

  // ---------------------------------------------------------------- the text of a head

  /** The line names a header field. */
  predicate Named(lib: Library, line: string, name: string) {
    SplitColon(line).Some? && lib.fieldName(SplitColon(line).value.0) == Some(name)
  }

  /** A header line: a known form of name, a colon, and a value of visible ASCII, spaces and tabs. */
  predicate IsFieldLine(lib: Library, line: string) {
    && SplitColon(line).Some? && lib.fieldName(SplitColon(line).value.0).Some?
    && forall c :: c in Trim(WireValue(line)) ==> 32 <= c as int < 127 || c == '\t'
  }

  /** Exactly one of the lines names the field. */
  predicate NamedOnce(lib: Library, lines: seq<string>, name: string) {
    exists i :: 0 <= i < |lines| && OnlyNamedAt(lib, lines, name, i)
  }

  predicate OnlyNamedAt(lib: Library, lines: seq<string>, name: string, i: nat)
    requires i < |lines|
  {
    Named(lib, lines[i], name) && forall j :: 0 <= j < |lines| && Named(lib, lines[j], name) ==> j == i
  }

  predicate NamedNever(lib: Library, lines: seq<string>, name: string) {
    forall j :: 0 <= j < |lines| ==> !Named(lib, lines[j], name)
  }

  /** Three words: a method, a target in origin form, and a version of HTTP/1. */
  predicate IsRequestLine(lib: Library, line: string) {
    var words := Words(line);
    && |words| == 3 && (words[2] == "HTTP/1.0" || words[2] == "HTTP/1.1")
    && lib.isVerb(words[0]) && lib.uri(words[1]).Some?
    && !lib.uri(words[1]).value.hasScheme && !lib.uri(words[1]).value.hasAuthority
  }

  /** A request line, header lines only after it, no Transfer-Encoding and exactly one Host. */
  predicate WellFormed(lib: Library, text: string) {
    var lines := Lines(text);
    && IsRequestLine(lib, lines[0])
    && (forall i :: 1 <= i < |lines| ==> IsFieldLine(lib, lines[i]))
    && NamedNever(lib, lines[1..], "transfer-encoding") && NamedOnce(lib, lines[1..], "host")
  }

  /** The head says what the lines say: method and target, and name and trimmed value of each field in order. */
  predicate Says(lib: Library, text: string, head: Head)
    requires WellFormed(lib, text)
  {
    var lines, words := Lines(text), Words(Lines(text)[0]);
    && head.verb == words[0] && Some(head.uri) == lib.uri(words[1])
    && |head.fields| == |lines| - 1
    && forall i :: 0 <= i < |head.fields| ==> FieldSays(lib, lines[i + 1], head.fields[i])
  }

  predicate FieldSays(lib: Library, line: string, field: (string, string)) {
    SplitColon(line).Some? && lib.fieldName(SplitColon(line).value.0) == Some(field.0) && field.1 == Trim(WireValue(line))
  }

  // ---------------------------------------------------------------- fields and lines

  predicate FieldOnlyAt(fields: seq<(string, string)>, name: string, i: nat) {
    i < |fields| && fields[i].0 == name && forall j :: 0 <= j < |fields| && fields[j].0 == name ==> j == i
  }

  lemma {:induction false} NoFieldNoValue(fields: seq<(string, string)>, name: string)
    requires forall j :: 0 <= j < |fields| ==> fields[j].0 != name
    ensures ValuesOf(fields, name) == []
  {
    if fields != [] {
      NoFieldNoValue(fields[1..], name);
    }
  }

  lemma {:induction false} OneFieldOneValue(fields: seq<(string, string)>, name: string, i: nat)
    requires FieldOnlyAt(fields, name, i)
    ensures ValuesOf(fields, name) == [fields[i].1]
  {
    if i == 0 {
      NoFieldNoValue(fields[1..], name);
    } else {
      OneFieldOneValue(fields[1..], name, i - 1);
    }
  }

  lemma LineIsField(lib: Library, line: string)
    ensures ParseField(lib, line).Some? <==> IsFieldLine(lib, line)
    ensures ParseField(lib, line).Some? ==> FieldSays(lib, line, ParseField(lib, line).value)
  {
  }

  /** The fields are those of the lines. */
  predicate FieldsSay(lib: Library, lines: seq<string>, fields: seq<(string, string)>) {
    |fields| == |lines| && forall i :: 0 <= i < |lines| ==> FieldSays(lib, lines[i], fields[i])
  }

  lemma LinesAreFields(lib: Library, lines: seq<string>)
    ensures ParseFields(lib, lines).Some? <==> forall i :: 0 <= i < |lines| ==> IsFieldLine(lib, lines[i])
    ensures ParseFields(lib, lines).Some? ==> FieldsSay(lib, lines, ParseFields(lib, lines).value)
  {
    FieldsArePointwise(lib, lines);
    forall i | 0 <= i < |lines|
      ensures ParseField(lib, lines[i]).Some? <==> IsFieldLine(lib, lines[i])
      ensures ParseField(lib, lines[i]).Some? ==> FieldSays(lib, lines[i], ParseField(lib, lines[i]).value)
    {
      LineIsField(lib, lines[i]);
    }
  }

  lemma NamedAsField(lib: Library, lines: seq<string>, fields: seq<(string, string)>, name: string, i: nat)
    requires FieldsSay(lib, lines, fields) && i < |lines|
    ensures Named(lib, lines[i], name) <==> fields[i].0 == name
  {
    assert FieldSays(lib, lines[i], fields[i]);
  }

  lemma ValuesAreNamed(lib: Library, lines: seq<string>, fields: seq<(string, string)>, name: string)
    requires FieldsSay(lib, lines, fields)
    ensures ValuesOf(fields, name) == [] <==> NamedNever(lib, lines, name)
    ensures |ValuesOf(fields, name)| == 1 <==> NamedOnce(lib, lines, name)
  {
    forall i | 0 <= i < |lines| ensures Named(lib, lines[i], name) <==> fields[i].0 == name {
      NamedAsField(lib, lines, fields, name, i);
    }
    if ValuesOf(fields, name) == [] {
      NoValueNoField(fields, name);
    }
    if NamedNever(lib, lines, name) {
      NoFieldNoValue(fields, name);
    }
    if |ValuesOf(fields, name)| == 1 {
      var i := OneValueOneField(fields, name);
      assert OnlyNamedAt(lib, lines, name, i);
    }
    if NamedOnce(lib, lines, name) {
      var i :| 0 <= i < |lines| && OnlyNamedAt(lib, lines, name, i);
      OneFieldOneValue(fields, name, i);
    }
  }

  lemma ValueOfLine(lib: Library, lines: seq<string>, fields: seq<(string, string)>, name: string, i: nat)
    requires FieldsSay(lib, lines, fields) && i < |lines| && OnlyNamedAt(lib, lines, name, i)
    ensures ValuesOf(fields, name) == [Trim(WireValue(lines[i]))]
  {
    forall j | 0 <= j < |lines| ensures Named(lib, lines[j], name) <==> fields[j].0 == name {
      NamedAsField(lib, lines, fields, name, j);
    }
    OneFieldOneValue(fields, name, i);
    assert FieldSays(lib, lines[i], fields[i]);
  }

  // ---------------------------------------------------------------- the verdict on a head

  lemma RequestLineExactly(lib: Library, line: string)
    ensures ParseRequestLine(lib, line).Some? <==> IsRequestLine(lib, line)
    ensures ParseRequestLine(lib, line).Some? ==>
              ParseRequestLine(lib, line).value.0 == Words(line)[0] && Some(ParseRequestLine(lib, line).value.1) == lib.uri(Words(line)[1])
  {
  }

  /** What the parser asks of the lines. */
  predicate Parses(lib: Library, lines: seq<string>)
    requires lines != []
  {
    && ParseRequestLine(lib, lines[0]).Some? && ParseFields(lib, lines[1..]).Some?
    && ValuesOf(ParseFields(lib, lines[1..]).value, "transfer-encoding") == []
    && |ValuesOf(ParseFields(lib, lines[1..]).value, "host")| == 1
  }

  lemma WellFormedExactly(lib: Library, text: string)
    ensures WellFormed(lib, text) <==> Parses(lib, Lines(text))
  {
    var lines := Lines(text);
    RequestLineExactly(lib, lines[0]);
    LinesAreFields(lib, lines[1..]);
    HeaderLines(lib, lines);
    if ParseFields(lib, lines[1..]).Some? {
      var fields := ParseFields(lib, lines[1..]).value;
      ValuesAreNamed(lib, lines[1..], fields, "transfer-encoding");
      ValuesAreNamed(lib, lines[1..], fields, "host");
    }
  }

  lemma ParsedSays(lib: Library, text: string, head: Head)
    requires WellFormed(lib, text) && ParseFields(lib, Lines(text)[1..]) == Some(head.fields)
    requires ParseRequestLine(lib, Lines(text)[0]) == Some((head.verb, head.uri))
    ensures Says(lib, text, head)
  {
    var lines := Lines(text);
    RequestLineExactly(lib, lines[0]);
    LinesAreFields(lib, lines[1..]);
    forall i | 0 <= i < |head.fields| ensures FieldSays(lib, lines[i + 1], head.fields[i]) {
      assert FieldSays(lib, lines[1..][i], head.fields[i]);
    }
  }

  lemma ParserAsks(lib: Library, bytes: Bytes)
    ensures ParseHead(lib, bytes).Ok? <==> lib.utf8(bytes).Some? && Parses(lib, Lines(lib.utf8(bytes).value))
    ensures ParseHead(lib, bytes).Ok? ==>
              var lines, head := Lines(lib.utf8(bytes).value), ParseHead(lib, bytes).value;
              ParseFields(lib, lines[1..]) == Some(head.fields) && ParseRequestLine(lib, lines[0]) == Some((head.verb, head.uri))
    ensures ParseHead(lib, bytes).Err? ==> ParseHead(lib, bytes) == Err(BadRequest)
  {
  }

  /** A head is accepted exactly when its bytes are UTF-8 and its text is well-formed, and then read as its
      lines say. Every other head is a bad request. */
  lemma HeadExactly(lib: Library, bytes: Bytes)
    ensures ParseHead(lib, bytes).Ok? <==> lib.utf8(bytes).Some? && WellFormed(lib, lib.utf8(bytes).value)
    ensures ParseHead(lib, bytes).Ok? ==> Says(lib, lib.utf8(bytes).value, ParseHead(lib, bytes).value)
    ensures ParseHead(lib, bytes).Err? ==> ParseHead(lib, bytes) == Err(BadRequest)
  {
    ParserAsks(lib, bytes);
    if lib.utf8(bytes).Some? {
      WellFormedExactly(lib, lib.utf8(bytes).value);
      if ParseHead(lib, bytes).Ok? {
        ParsedSays(lib, lib.utf8(bytes).value, ParseHead(lib, bytes).value);
      }
    }
  }

  lemma HeaderLines(lib: Library, lines: seq<string>)
    requires lines != []
    ensures (forall i :: 0 <= i < |lines[1..]| ==> IsFieldLine(lib, lines[1..][i])) <==>
            (forall i :: 1 <= i < |lines| ==> IsFieldLine(lib, lines[i]))
  {
    if forall i :: 0 <= i < |lines[1..]| ==> IsFieldLine(lib, lines[1..][i]) {
      forall i | 1 <= i < |lines| ensures IsFieldLine(lib, lines[i]) {
        assert lines[1..][i - 1] == lines[i];
      }
    }
  }

  /** What the Content-Length lines of a head announce. */
  datatype Announcement = Nothing | Unclear | TooMuch | Length(n: nat)

  /** Nothing without such a line, unclear with several or with one that is no number, and too much above
      65536. */
  ghost function Announces(lib: Library, lines: seq<string>): Announcement {
    if NamedNever(lib, lines, "content-length") then Nothing
    else if i :| 0 <= i < |lines| && OnlyNamedAt(lib, lines, "content-length", i) then
      match ParseUsize(Trim(WireValue(lines[i])))
      case None => Unclear
      case Some(n) => if n > 65536 then TooMuch else Length(n)
    else Unclear
  }

  lemma LengthExactly(lib: Library, lines: seq<string>, head: Head)
    requires FieldsSay(lib, lines, head.fields)
    ensures BodyLength(head) == match Announces(lib, lines)
                                case Nothing => Err(LengthRequired)
                                case Unclear => Err(BadRequest)
                                case TooMuch => Err(PayloadTooLarge)
                                case Length(n) => Ok(n)
  {
    ValuesAreNamed(lib, lines, head.fields, "content-length");
    if i :| 0 <= i < |lines| && OnlyNamedAt(lib, lines, "content-length", i) {
      ValueOfLine(lib, lines, head.fields, "content-length", i);
      assert forall j :: 0 <= j < |lines| && OnlyNamedAt(lib, lines, "content-length", j) ==> j == i;
    }
  }

  /** The whole verdict on a head, with its errors, in terms of its text. */
  lemma HeadAndLengthExactly(lib: Library, bytes: Bytes)
    ensures HeadAndLength(lib, bytes).Ok? <==>
            && lib.utf8(bytes).Some? && WellFormed(lib, lib.utf8(bytes).value)
            && Announces(lib, Lines(lib.utf8(bytes).value)[1..]).Length?
    ensures HeadAndLength(lib, bytes).Ok? ==>
              && Says(lib, lib.utf8(bytes).value, HeadAndLength(lib, bytes).value.0)
              && Announces(lib, Lines(lib.utf8(bytes).value)[1..]) == Length(HeadAndLength(lib, bytes).value.1)
    ensures HeadAndLength(lib, bytes) == Err(LengthRequired) <==>
            lib.utf8(bytes).Some? && WellFormed(lib, lib.utf8(bytes).value) && Announces(lib, Lines(lib.utf8(bytes).value)[1..]).Nothing?
    ensures HeadAndLength(lib, bytes) == Err(PayloadTooLarge) <==>
            lib.utf8(bytes).Some? && WellFormed(lib, lib.utf8(bytes).value) && Announces(lib, Lines(lib.utf8(bytes).value)[1..]).TooMuch?
  {
    HeadExactly(lib, bytes);
    if ParseHead(lib, bytes).Ok? {
      var text, head := lib.utf8(bytes).value, ParseHead(lib, bytes).value;
      HeadSays(lib, text, head);
      LengthExactly(lib, Lines(text)[1..], head);
    }
  }

  lemma HeadSays(lib: Library, text: string, head: Head)
    requires WellFormed(lib, text) && Says(lib, text, head)
    ensures FieldsSay(lib, Lines(text)[1..], head.fields)
  {
    var lines := Lines(text);
    forall i | 0 <= i < |lines[1..]| ensures FieldSays(lib, lines[1..][i], head.fields[i]) {
      assert lines[1..][i] == lines[i + 1];
    }
  }

  // ---------------------------------------------------------------- the verdict on a stream

  /** The stream starts with a request: a well-formed head of at most 16384 bytes before the first blank line,
      and at least as many bytes after it as the head announces. */
  ghost predicate StartsWithRequest(lib: Library, total: Bytes) {
    && PdpReader.FindHeaderEnd(total).Some?
    && var e := PdpReader.FindHeaderEnd(total).value;
       && e <= 16384 && lib.utf8(total[..e]).Some?
       && var text := lib.utf8(total[..e]).value;
          && WellFormed(lib, text) && Announces(lib, Lines(text)[1..]).Length?
          && e + 4 + Announces(lib, Lines(text)[1..]).n <= |total|
  }

  /** The request says what the head of the stream says, and its body is the announced number of bytes after
      the blank line. */
  ghost predicate SaysStream(lib: Library, total: Bytes, request: PdpReader.Request)
    requires StartsWithRequest(lib, total)
  {
    var e := PdpReader.FindHeaderEnd(total).value;
    var text := lib.utf8(total[..e]).value;
    var n := Announces(lib, Lines(text)[1..]).n;
    Says(lib, text, request.head) && request.body == total[e + 4..e + 4 + n]
  }

  lemma FirstMessageExactly(lib: Library, total: Bytes)
    ensures PdpReader.FirstMessage(PdpReader.ParserOf(lib), total).Some? <==> StartsWithRequest(lib, total)
    ensures StartsWithRequest(lib, total) ==> SaysStream(lib, total, PdpReader.FirstMessage(PdpReader.ParserOf(lib), total).value.0)
  {
    FirstMessageOfParser(PdpReader.ParserOf(lib), total);
    if PdpReader.FindHeaderEnd(total).Some? {
      var head := total[..PdpReader.FindHeaderEnd(total).value];
      HeadAndLengthExactly(lib, head);
      assert PdpReader.ParserOf(lib)(head) == HeadAndLength(lib, head);
    }
  }

  lemma FirstMessageOfParser(heads: PdpReader.HeadParser, total: Bytes)
    ensures PdpReader.FirstMessage(heads, total).Some? <==>
            && PdpReader.FindHeaderEnd(total).Some?
            && var e := PdpReader.FindHeaderEnd(total).value;
               e <= 16384 && heads(total[..e]).Ok? && e + 4 + heads(total[..e]).value.1 <= |total|
    ensures PdpReader.FirstMessage(heads, total).Some? ==>
              var e := PdpReader.FindHeaderEnd(total).value;
              var (head, n) := heads(total[..e]).value;
              PdpReader.FirstMessage(heads, total).value.0 == PdpReader.Request(head, total[e + 4..e + 4 + n])
  {
  }

  /** Whatever the pieces, only streams that start with a request are accepted, and read as they say. */
  lemma AcceptedStreamIsWellFormed(lib: Library, arrivals: seq<PdpReader.Arrival>)
    requires PdpReader.ReadOutcome(PdpReader.ParserOf(lib), arrivals).Ok?
    ensures StartsWithRequest(lib, PdpReader.Flat(arrivals))
    ensures SaysStream(lib, PdpReader.Flat(arrivals), PdpReader.ReadOutcome(PdpReader.ParserOf(lib), arrivals).value.0)
  {
    PdpReader.AcceptedIsFirstMessage(PdpReader.ParserOf(lib), arrivals);
    FirstMessageExactly(lib, PdpReader.Flat(arrivals));
  }

  /** Every stream that starts with a request is accepted under some error-free delivery. */
  lemma WellFormedStreamIsAccepted(lib: Library, total: Bytes) returns (arrivals: seq<PdpReader.Arrival>)
    requires StartsWithRequest(lib, total)
    ensures PdpReader.Sound(arrivals) && PdpReader.Flat(arrivals) == total
    ensures PdpReader.ReadOutcome(PdpReader.ParserOf(lib), arrivals).Ok?
    ensures SaysStream(lib, total, PdpReader.ReadOutcome(PdpReader.ParserOf(lib), arrivals).value.0)
  {
    FirstMessageExactly(lib, total);
    arrivals := PdpReader.SomeDeliveryIsAccepted(PdpReader.ParserOf(lib), total);
    AcceptedStreamIsWellFormed(lib, arrivals);
  }
}
