/** What the Cedar decision point accepts as a Content-Length, compared with what the standard allows: on the
    wire, digits with optional spaces and tabs around them (sections 5.5 and 8.6 of RFC 9110). */
module ContentLength {
  import opened Common
  import opened Text
  import opened HttpHead
  import Decimal
  import Wasip2

  /** `Content-Length = 1*DIGIT` (section 8.6 of RFC 9110). */
  predicate LegalLength(s: string) {
    s != [] && Decimal.AllDigits(s)
  }

  /** Every number, printed in decimal, is read back; so is its form with a plus sign, which the standard
      does not allow. */
  lemma ContentLengthRoundTrip(n: nat)
    requires n <= U64_MAX
    ensures ParseUsize(Decimal.Print(n)) == Some(n)
    ensures ParseUsize("+" + Decimal.Print(n)) == Some(n) && !LegalLength("+" + Decimal.Print(n))
  {
    var s := Decimal.Print(n);
    Decimal.ValueOfPrint(n);
    assert Decimal.IsDigit(s[0]);
    assert ("+" + s)[1..] == s;
    assert !Decimal.IsDigit(("+" + s)[0]);
  }

  /** The plus sign is the only liberty taken: an accepted text is legal exactly when it does not start
      with one, and every legal text of a 64-bit number is accepted. */
  lemma OnlyPlusIsExtra(s: string)
    ensures ParseUsize(s).Some? ==> (LegalLength(s) <==> s[0] != '+')
    ensures LegalLength(s) && Decimal.Value(s) <= U64_MAX ==> ParseUsize(s) == Some(Decimal.Value(s))
  {
    if ParseUsize(s).Some? && s[0] == '+' {
      assert !Decimal.IsDigit(s[0]);
    }
    if LegalLength(s) {
      assert Decimal.IsDigit(s[0]);
    }
  }

  // ---------------------------------------------------------------- the value on the wire

  /** The whitespace that the standard allows around a field value. */
  predicate IsOws(c: char) {
    c == ' ' || c == '\t'
  }

  /** Spaces and tabs are the only whitespace, and there is no plus sign. */
  predicate IsClean(wire: string) {
    '+' !in wire && forall c :: c in wire && IsWhitespace(c) ==> IsOws(c)
  }

  lemma AcceptedHasNoWhitespace(s: string)
    requires ParseUsize(s).Some?
    ensures s != [] && forall c :: c in s ==> !IsWhitespace(c) && (c == '+' || Decimal.IsDigit(c))
  {
    var digits := if s != [] && s[0] == '+' then s[1..] else s;
    forall c | c in s ensures !IsWhitespace(c) && (c == '+' || Decimal.IsDigit(c)) {
      assert c == '+' || c in digits;
    }
  }

  lemma CleanIsLegal(wire: string)
    requires ParseUsize(Trim(wire)).Some? && IsClean(wire)
    ensures LegalLength(Strip(IsOws, wire))
  {
    var core := Trim(wire);
    var pre, post := StripParts(IsWhitespace, wire);
    AcceptedHasNoWhitespace(core);
    forall c | c in pre || c in post ensures IsOws(c) {
      assert c in wire;
    }
    forall c | c in core ensures Decimal.IsDigit(c) {
      assert c in wire;
    }
    assert core[0] in core && core[|core| - 1] in core;
    StripOf(IsOws, pre, core, post);
  }

  lemma LegalIsClean(wire: string)
    requires LegalLength(Strip(IsOws, wire))
    ensures IsClean(wire)
  {
    var core := Strip(IsOws, wire);
    var pre, post := StripParts(IsOws, wire);
    forall c | c in wire ensures IsOws(c) || Decimal.IsDigit(c) {
      assert c in pre || c in core || c in post;
    }
  }

  /** A value that the reader accepts is legal on the wire exactly when it holds no plus sign and no
      whitespace other than spaces and tabs. */
  lemma AcceptedValueIsLegal(wire: string)
    requires ParseUsize(Trim(wire)).Some?
    ensures LegalLength(Strip(IsOws, wire)) <==> IsClean(wire)
  {
    if IsClean(wire) {
      CleanIsLegal(wire);
    }
    if LegalLength(Strip(IsOws, wire)) {
      LegalIsClean(wire);
    }
  }

  /** Every legal value of a 64-bit number is accepted. */
  lemma LegalValueIsAccepted(wire: string)
    requires LegalLength(Strip(IsOws, wire)) && Decimal.Value(Strip(IsOws, wire)) <= U64_MAX
    ensures ParseUsize(Trim(wire)) == Some(Decimal.Value(Strip(IsOws, wire)))
  {
    var core := Strip(IsOws, wire);
    var pre, post := StripParts(IsOws, wire);
    assert All(IsWhitespace, pre) && All(IsWhitespace, post);
    assert Decimal.IsDigit(core[0]) && Decimal.IsDigit(core[|core| - 1]);
    StripOf(IsWhitespace, pre, core, post);
    OnlyPlusIsExtra(core);
  }

  /** The WASIp2 client takes no plus sign, but the same whitespace. */
  lemma ClientValueIsLegal(wire: string)
    requires Wasip2.ParseLength(Some(wire)).Ok?
    ensures LegalLength(Strip(IsOws, wire)) <==> forall c :: c in wire && IsWhitespace(c) ==> IsOws(c)
  {
    var core := Trim(wire);
    var pre, post := StripParts(IsWhitespace, wire);
    OnlyPlusIsExtra(core);
    forall c | c in wire ensures c != '+' {
      assert c in pre || c in core || c in post;
    }
    AcceptedValueIsLegal(wire);
  }

  // ---------------------------------------------------------------- the header line

  /** A header line whose name is Content-Length. */
  predicate IsLengthLine(lib: Library, line: string) {
    SplitColon(line).Some? && lib.fieldName(SplitColon(line).value.0) == Some("content-length")
  }

  function WireValue(line: string): string
    requires SplitColon(line).Some?
  {
    SplitColon(line).value.1
  }

  lemma {:induction false} NoValueNoField(fields: seq<(string, string)>, name: string)
    requires ValuesOf(fields, name) == []
    ensures forall j :: 0 <= j < |fields| ==> fields[j].0 != name
  {
    if fields != [] {
      NoValueNoField(fields[1..], name);
    }
  }

  lemma {:induction false} OneValueOneField(fields: seq<(string, string)>, name: string) returns (i: nat)
    requires |ValuesOf(fields, name)| == 1
    ensures i < |fields| && fields[i] == (name, ValuesOf(fields, name)[0])
    ensures forall j :: 0 <= j < |fields| && fields[j].0 == name ==> j == i
  {
    if fields[0].0 == name {
      i := 0;
      NoValueNoField(fields[1..], name);
    } else {
      var k := OneValueOneField(fields[1..], name);
      i := k + 1;
    }
  }

  /** A head whose body length is accepted has exactly one Content-Length line, and its value is legal on the
      wire exactly when it holds no plus sign and no whitespace other than spaces and tabs. */
  lemma AcceptedLengthIsLegal(lib: Library, bytes: Bytes) returns (i: nat)
    requires HeadAndLength(lib, bytes).Ok?
    ensures lib.utf8(bytes).Some?
    ensures var lines := Lines(lib.utf8(bytes).value)[1..];
            && i < |lines| && IsLengthLine(lib, lines[i])
            && (forall j :: 0 <= j < |lines| && IsLengthLine(lib, lines[j]) ==> j == i)
            && ParseUsize(Trim(WireValue(lines[i]))) == Some(HeadAndLength(lib, bytes).value.1)
            && (LegalLength(Strip(IsOws, WireValue(lines[i]))) <==> IsClean(WireValue(lines[i])))
  {
    var lines := Lines(lib.utf8(bytes).value)[1..];
    var fields := ParseFields(lib, lines).value;
    i := LengthLine(lib, lines, fields);
    AcceptedValueIsLegal(WireValue(lines[i]));
  }

  lemma LengthLine(lib: Library, lines: seq<string>, fields: seq<(string, string)>) returns (i: nat)
    requires ParseFields(lib, lines) == Some(fields) && |ValuesOf(fields, "content-length")| == 1
    ensures i < |lines| && IsLengthLine(lib, lines[i])
    ensures forall j :: 0 <= j < |lines| && IsLengthLine(lib, lines[j]) ==> j == i
    ensures Trim(WireValue(lines[i])) == ValuesOf(fields, "content-length")[0]
  {
    FieldsArePointwise(lib, lines);
    i := OneValueOneField(fields, "content-length");
    assert ParseField(lib, lines[i]) == Some(fields[i]);
    forall j | 0 <= j < |lines| && IsLengthLine(lib, lines[j]) ensures j == i {
      assert ParseField(lib, lines[j]) == Some(fields[j]);
    }
  }

  // ---------------------------------------------------------------- both liberties are real

  /** Every printed head is accepted with any whitespace character before its values, a vertical tab or a
      no-break space for example; its Content-Length is then not legal on the wire. */
  lemma OtherWhitespaceIsAccepted(lib: Library, head: Head, space: char)
    requires DecodesUtf8(lib) && Renderable(lib, head) && BodyLength(head).Ok?
    requires IsWhitespace(space) && !IsOws(space) && space != '\r'
    ensures HeadAndLength(lib, Utf8(HeadText([space], head))) == Ok((head, BodyLength(head).value))
    ensures !LegalLength(Strip(IsOws, [space] + ValuesOf(head.fields, "content-length")[0]))
  {
    HeadRoundTrip(lib, [space], head);
    var wire := [space] + ValuesOf(head.fields, "content-length")[0];
    assert space in wire;
    if LegalLength(Strip(IsOws, wire)) {
      LegalIsClean(wire);
    }
  }

  const VERTICAL_TAB: char := 11 as char

  lemma SomeHead(lib: Library) returns (head: Head)
    requires Accepts(lib)
    ensures Renderable(lib, head) && BodyLength(head) == Ok(0)
  {
    EmptyPostIsRenderable(lib);
    head := EMPTY_POST;
  }

  /** One such head, with a vertical tab: accepted, and illegal on the wire. */
  lemma VerticalTabIsAccepted(lib: Library) returns (head: Head)
    requires DecodesUtf8(lib) && Accepts(lib)
    ensures HeadAndLength(lib, Utf8(HeadText([VERTICAL_TAB], head))) == Ok((head, 0))
    ensures |ValuesOf(head.fields, "content-length")| == 1
    ensures !LegalLength(Strip(IsOws, [VERTICAL_TAB] + ValuesOf(head.fields, "content-length")[0]))
  {
    head := SomeHead(lib);
    OtherWhitespaceIsAccepted(lib, head, VERTICAL_TAB);
  }
}
