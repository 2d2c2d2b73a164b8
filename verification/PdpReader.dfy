/** The bounded HTTP/1.1 reader of the Cedar decision point, on a connection that delivers its bytes in
    arbitrary pieces. */
module PdpReader {
  import opened Common
  import opened HttpHead
  import opened Text

  const MAX_HEADER_BYTES: nat := 16 * 1024
  const CHUNK: nat := 4 * 1024
  const CRLFCRLF: Bytes := [13, 10, 13, 10]

  /** What the connection delivers next. `Broken` is a read error or an elapsed deadline. */
  datatype Arrival = Got(bytes: Bytes) | Broken

  /** A parser of heads: the head and its body length, or an error. Everything below holds for every such
      parser; `HttpHead.HeadAndLength` is the one in use. */
  type HeadParser = Bytes -> Result<(Head, nat), ReadError>

  function ParserOf(lib: Library): HeadParser {
    (bytes: Bytes) => HeadAndLength(lib, bytes)
  }

  datatype Request = Request(head: Head, body: Bytes)

  // ---------------------------------------------------------------- the end of the head

  predicate MatchesAt(buffer: Bytes, p: nat) {
    p + 4 <= |buffer| && buffer[p..p + 4] == CRLFCRLF
  }

  function FindFrom(buffer: Bytes, p: nat): (r: Option<nat>)
    requires p <= |buffer|
    ensures r.Some? ==> p <= r.value && MatchesAt(buffer, r.value) && forall q: nat :: p <= q < r.value ==> !MatchesAt(buffer, q)
    ensures r.None? ==> forall q: nat :: p <= q ==> !MatchesAt(buffer, q)
    decreases |buffer| - p
  {
    if p + 4 > |buffer| then None
    else if MatchesAt(buffer, p) then Some(p)
    else FindFrom(buffer, p + 1)
  }

  /** `find_header_end`: the first blank line, if any. */
  function FindHeaderEnd(buffer: Bytes): (r: Option<nat>)
    ensures r.Some? ==> MatchesAt(buffer, r.value) && forall q: nat :: q < r.value ==> !MatchesAt(buffer, q)
    ensures r.None? ==> forall q: nat :: !MatchesAt(buffer, q)
  {
    FindFrom(buffer, 0)
  }

  /** A prefix of a stream shows the end of the head exactly when it covers it, at the same place. */
  lemma HeaderEndInPrefix(total: Bytes, n: nat)
    requires n <= |total|
    ensures FindHeaderEnd(total[..n]) ==
            if FindHeaderEnd(total).Some? && FindHeaderEnd(total).value + 4 <= n then FindHeaderEnd(total) else None
  {
    var prefix := total[..n];
    forall q: nat ensures MatchesAt(prefix, q) <==> q + 4 <= n && MatchesAt(total, q) {
      if q + 4 <= n {
        assert prefix[q..q + 4] == total[q..q + 4];
      }
    }
    var whole, part := FindHeaderEnd(total), FindHeaderEnd(prefix);
    assert whole.Some? && whole.value + 4 <= n ==> MatchesAt(prefix, whole.value);
    if part.Some? {
      assert MatchesAt(total, part.value);
      assert whole.Some? && whole.value <= part.value;
    }
  }

  // ---------------------------------------------------------------- the connection

  /** All bytes still to come. */
  function Flat(arrivals: seq<Arrival>): Bytes {
    if arrivals == [] then [] else
      (match arrivals[0] case Got(bytes) => bytes case Broken => []) + Flat(arrivals[1..])
  }

  /** One `read` into a buffer of the given size; no bytes means end of stream. */
  function ReadSome(arrivals: seq<Arrival>, limit: nat): (r: Result<(Bytes, seq<Arrival>), ReadError>)
    ensures r.Ok? ==> |r.value.0| <= limit && Flat(arrivals) == r.value.0 + Flat(r.value.1)
  {
    if arrivals == [] then Ok(([], [])) else
      match arrivals[0]
      case Broken => Err(BadRequest)
      case Got(bytes) =>
        if |bytes| <= limit then Ok((bytes, arrivals[1..]))
        else
          var rest := [Got(bytes[limit..])] + arrivals[1..];
          assert rest[1..] == arrivals[1..] && bytes == bytes[..limit] + bytes[limit..];
          Ok((bytes[..limit], rest))
  }

  /** Reads until the buffer shows the end of the head. */
  function GatherHead(arrivals: seq<Arrival>, buffer: Bytes): (r: Result<(Bytes, seq<Arrival>), ReadError>)
    ensures r.Ok? ==> FindHeaderEnd(r.value.0).Some?
    ensures r.Ok? ==> buffer + Flat(arrivals) == r.value.0 + Flat(r.value.1)
    decreases |Flat(arrivals)|
  {
    if FindHeaderEnd(buffer).Some? then Ok((buffer, arrivals))
    else if |buffer| >= MAX_HEADER_BYTES then Err(PayloadTooLarge)
    else match ReadSome(arrivals, CHUNK)
      case Err(e) => Err(e)
      case Ok((got, rest)) =>
        if got == [] then Err(BadRequest)
        else if |buffer| + |got| > MAX_HEADER_BYTES + MAX_DOCUMENT_BYTES then Err(PayloadTooLarge)
        else
          assert buffer + (got + Flat(rest)) == buffer + got + Flat(rest);
          GatherHead(rest, buffer + got)
  }

  /** Reads no more than is missing, until the buffer has the expected size. */
  function GatherBody(arrivals: seq<Arrival>, buffer: Bytes, expected: nat): (r: Result<(Bytes, seq<Arrival>), ReadError>)
    ensures r.Ok? ==> buffer + Flat(arrivals) == r.value.0 + Flat(r.value.1)
    ensures r.Ok? ==> if |buffer| <= expected then |r.value.0| == expected else r.value.0 == buffer
    decreases |Flat(arrivals)|
  {
    if |buffer| >= expected then Ok((buffer, arrivals))
    else match ReadSome(arrivals, Min(expected - |buffer|, CHUNK))
      case Err(e) => Err(e)
      case Ok((got, rest)) =>
        if got == [] then Err(BadRequest)
        else
          assert buffer + (got + Flat(rest)) == buffer + got + Flat(rest);
          GatherBody(rest, buffer + got, expected)
  }

  /** The request that a gathered head announces, and the size of the whole message. */
  function Announced(heads: HeadParser, buffer: Bytes): (r: Result<(Head, nat), ReadError>)
    requires FindHeaderEnd(buffer).Some?
    ensures r.Ok? ==> FindHeaderEnd(buffer).value + 4 <= r.value.1
  {
    var e := FindHeaderEnd(buffer).value;
    if e > MAX_HEADER_BYTES then Err(PayloadTooLarge)
    else match heads(buffer[..e])
      case Err(error) => Err(error)
      case Ok((head, n)) => Ok((head, e + 4 + n))
  }

  /** `read_request`, with what is left on the connection. */
  function ReadOutcome(heads: HeadParser, arrivals: seq<Arrival>): Result<(Request, seq<Arrival>), ReadError> {
    match GatherHead(arrivals, [])
    case Err(e) => Err(e)
    case Ok((buffer, rest)) =>
      match Announced(heads, buffer)
      case Err(e) => Err(e)
      case Ok((head, expected)) =>
        match GatherBody(rest, buffer, expected)
        case Err(e) => Err(e)
        case Ok((message, left)) =>
          if |message| != expected then Err(BadRequest)
          else Ok((Request(head, message[FindHeaderEnd(buffer).value + 4..]), left))
  }

  class Connection {
    var arrivals: seq<Arrival>

    constructor (arrivals: seq<Arrival>)
      ensures this.arrivals == arrivals
    {
      this.arrivals := arrivals;
    }

    method Read(limit: nat) returns (r: Result<Bytes, ReadError>)
      modifies this
      ensures r.Ok? <==> ReadSome(old(arrivals), limit).Ok?
      ensures r.Ok? ==> ReadSome(old(arrivals), limit) == Ok((r.value, arrivals))
      ensures r.Err? ==> ReadSome(old(arrivals), limit) == Err(r.error)
    {
      match ReadSome(arrivals, limit)
      case Err(e) =>
        r := Err(e);
      case Ok((got, rest)) =>
        arrivals := rest;
        r := Ok(got);
    }

    method ReadHead() returns (r: Result<Bytes, ReadError>)
      modifies this
      ensures r.Ok? ==> GatherHead(old(arrivals), []) == Ok((r.value, arrivals)) && FindHeaderEnd(r.value).Some?
      ensures r.Err? ==> GatherHead(old(arrivals), []) == Err(r.error)
    {
      var buffer: Bytes := [];
      while FindHeaderEnd(buffer).None?
        invariant GatherHead(old(arrivals), []) == GatherHead(arrivals, buffer)
        decreases |Flat(arrivals)|
      {
        if |buffer| >= MAX_HEADER_BYTES {
          return Err(PayloadTooLarge);
        }
        var got := Read(CHUNK);
        if got.Err? {
          return Err(got.error);
        }
        if got.value == [] {
          return Err(BadRequest);
        }
        if |buffer| + |got.value| > MAX_HEADER_BYTES + MAX_DOCUMENT_BYTES {
          return Err(PayloadTooLarge);
        }
        buffer := buffer + got.value;
      }
      return Ok(buffer);
    }

    method ReadBody(start: Bytes, expected: nat) returns (r: Result<Bytes, ReadError>)
      modifies this
      ensures r.Ok? ==> GatherBody(old(arrivals), start, expected) == Ok((r.value, arrivals))
      ensures r.Err? ==> GatherBody(old(arrivals), start, expected) == Err(r.error)
    {
      var buffer := start;
      while |buffer| < expected
        invariant GatherBody(old(arrivals), start, expected) == GatherBody(arrivals, buffer, expected)
        decreases |Flat(arrivals)|
      {
        var got := Read(Min(expected - |buffer|, CHUNK));
        if got.Err? {
          return Err(got.error);
        }
        if got.value == [] {
          return Err(BadRequest);
        }
        buffer := buffer + got.value;
      }
      return Ok(buffer);
    }

    method ReadRequest(lib: Library) returns (r: Result<Request, ReadError>)
      modifies this
      ensures r.Ok? ==> ReadOutcome(ParserOf(lib), old(arrivals)) == Ok((r.value, arrivals))
      ensures r.Err? ==> ReadOutcome(ParserOf(lib), old(arrivals)) == Err(r.error)
    {
      var heads := ParserOf(lib);
      var head := ReadHead();
      if head.Err? {
        return Err(head.error);
      }
      var buffer := head.value;
      var announced := Announced(heads, buffer);
      if announced.Err? {
        return Err(announced.error);
      }
      var (parsed, expected) := announced.value;
      var message := ReadBody(buffer, expected);
      if message.Err? {
        return Err(message.error);
      }
      if |message.value| != expected {
        return Err(BadRequest);
      }
      return Ok(Request(parsed, message.value[FindHeaderEnd(buffer).value + 4..]));
    }
  }

  // ---------------------------------------------------------------- the reference: one message from the whole stream

  /** The first message of a byte stream, read off without any notion of pieces: the head ends at the
      first blank line and the body is the announced number of bytes after it (section 6.3 of RFC 9112). */
  function FirstMessage(heads: HeadParser, total: Bytes): Option<(Request, nat)> {
    if FindHeaderEnd(total).None? then None else
      match Announced(heads, total)
      case Err(_) => None
      case Ok((head, expected)) =>
        if expected <= |total|
        then Some((Request(head, total[FindHeaderEnd(total).value + 4..expected]), expected)) else None
  }

  /** What a covering prefix announces is what the whole stream announces. */
  lemma AnnouncedByPrefix(heads: HeadParser, total: Bytes, n: nat)
    requires n <= |total| && FindHeaderEnd(total[..n]).Some?
    ensures FindHeaderEnd(total) == FindHeaderEnd(total[..n])
    ensures Announced(heads, total) == Announced(heads, total[..n])
  {
    HeaderEndInPrefix(total, n);
    var e := FindHeaderEnd(total).value;
    assert total[..n][..e] == total[..e];
  }

  /** Whatever the pieces, an accepted request is the first message of the stream, and exactly its bytes
      were taken from the connection. */
  lemma AcceptedIsFirstMessage(heads: HeadParser, arrivals: seq<Arrival>)
    requires ReadOutcome(heads, arrivals).Ok?
    ensures var (request, left) := ReadOutcome(heads, arrivals).value;
            && FirstMessage(heads, Flat(arrivals)).Some?
            && FirstMessage(heads, Flat(arrivals)).value.0 == request
            && Flat(left) == Flat(arrivals)[FirstMessage(heads, Flat(arrivals)).value.1..]
  {
    var buffer, rest, head, expected, message, left := OutcomeParts(heads, arrivals);
    PartsAreFirstMessage(heads, arrivals, buffer, rest, head, expected, message, left);
  }

  lemma PartsAreFirstMessage(heads: HeadParser, arrivals: seq<Arrival>, buffer: Bytes, rest: seq<Arrival>, head: Head,
                             expected: nat, message: Bytes, left: seq<Arrival>)
    requires GatherHead(arrivals, []) == Ok((buffer, rest)) && Announced(heads, buffer) == Ok((head, expected))
    requires GatherBody(rest, buffer, expected) == Ok((message, left)) && |message| == expected
    ensures FirstMessage(heads, Flat(arrivals)) == Some((Request(head, message[FindHeaderEnd(buffer).value + 4..]), expected))
    ensures expected <= |Flat(arrivals)| && Flat(left) == Flat(arrivals)[expected..]
  {
    GatheredBytes(arrivals, buffer, rest, expected, message, left);
    FirstMessageFromBytes(heads, Flat(arrivals), buffer, head, expected, message);
  }

  lemma FirstMessageFromBytes(heads: HeadParser, total: Bytes, buffer: Bytes, head: Head, expected: nat, message: Bytes)
    requires |buffer| <= |total| && total[..|buffer|] == buffer && FindHeaderEnd(buffer).Some?
    requires expected <= |total| && total[..expected] == message && Announced(heads, buffer) == Ok((head, expected))
    ensures FirstMessage(heads, total) == Some((Request(head, message[FindHeaderEnd(buffer).value + 4..]), expected))
  {
    FirstMessageFromPrefix(heads, total, |buffer|, head, expected);
  }

  lemma OutcomeParts(heads: HeadParser, arrivals: seq<Arrival>)
    returns (buffer: Bytes, rest: seq<Arrival>, head: Head, expected: nat, message: Bytes, left: seq<Arrival>)
    requires ReadOutcome(heads, arrivals).Ok?
    ensures GatherHead(arrivals, []) == Ok((buffer, rest)) && Announced(heads, buffer) == Ok((head, expected))
    ensures GatherBody(rest, buffer, expected) == Ok((message, left)) && |message| == expected
    ensures ReadOutcome(heads, arrivals) == Ok((Request(head, message[FindHeaderEnd(buffer).value + 4..]), left))
  {
    buffer, rest := GatherHead(arrivals, []).value.0, GatherHead(arrivals, []).value.1;
    head, expected := Announced(heads, buffer).value.0, Announced(heads, buffer).value.1;
    var body := GatherBody(rest, buffer, expected);
    message, left := body.value.0, body.value.1;
  }

  lemma FirstMessageFromPrefix(heads: HeadParser, total: Bytes, n: nat, head: Head, expected: nat)
    requires n <= |total| && FindHeaderEnd(total[..n]).Some? && expected <= |total|
    requires Announced(heads, total[..n]) == Ok((head, expected))
    ensures FirstMessage(heads, total) ==
            Some((Request(head, total[..expected][FindHeaderEnd(total[..n]).value + 4..]), expected))
  {
    AnnouncedByPrefix(heads, total, n);
    var e := FindHeaderEnd(total).value;
    assert total[..expected][e + 4..] == total[e + 4..expected];
  }

  lemma GatheredBytes(arrivals: seq<Arrival>, buffer: Bytes, rest: seq<Arrival>, expected: nat, message: Bytes, left: seq<Arrival>)
    requires GatherHead(arrivals, []) == Ok((buffer, rest))
    requires GatherBody(rest, buffer, expected) == Ok((message, left)) && |message| == expected
    ensures var total := Flat(arrivals);
            && |buffer| <= |total| && total[..|buffer|] == buffer && FindHeaderEnd(buffer).Some?
            && expected <= |total| && total[..expected] == message && total[expected..] == Flat(left)
  {
    var total := Flat(arrivals);
    assert [] + total == total;
    assert total == buffer + Flat(rest);
    assert total == message + Flat(left);
  }

  /** Two accepted deliveries of the same bytes yield the same request and leave the same bytes. */
  lemma ChunkingDoesNotMatter(heads: HeadParser, a: seq<Arrival>, b: seq<Arrival>)
    requires Flat(a) == Flat(b)
    requires ReadOutcome(heads, a).Ok? && ReadOutcome(heads, b).Ok?
    ensures ReadOutcome(heads, a).value.0 == ReadOutcome(heads, b).value.0
    ensures Flat(ReadOutcome(heads, a).value.1) == Flat(ReadOutcome(heads, b).value.1)
  {
    AcceptedIsFirstMessage(heads, a);
    AcceptedIsFirstMessage(heads, b);
  }

  // ---------------------------------------------------------------- when acceptance does not depend on the pieces

  /** A delivery without errors or early end. */
  predicate Sound(arrivals: seq<Arrival>) {
    forall i :: 0 <= i < |arrivals| ==> arrivals[i].Got? && arrivals[i].bytes != []
  }

  lemma ReadSomeIsSound(arrivals: seq<Arrival>, limit: nat)
    requires Sound(arrivals) && limit > 0
    ensures var r := ReadSome(arrivals, limit);
            r.Ok? && Sound(r.value.1) && (Flat(arrivals) != [] ==> r.value.0 != [])
  {
  }

  /** When the head fits, it is found, and at most one chunk minus one byte is read past its end. */
  lemma {:induction false} HeadIsFound(arrivals: seq<Arrival>, buffer: Bytes, total: Bytes, e: nat)
    requires Sound(arrivals) && total == buffer + Flat(arrivals)
    requires FindHeaderEnd(total) == Some(e) && e + 4 <= MAX_HEADER_BYTES
    requires |buffer| <= e + 3 + CHUNK
    ensures var r := GatherHead(arrivals, buffer);
            r.Ok? && Sound(r.value.1) && |r.value.0| <= e + 3 + CHUNK
    decreases |Flat(arrivals)|
  {
    HeaderEndInPrefix(total, |buffer|);
    assert total[..|buffer|] == buffer;
    if FindHeaderEnd(buffer).None? {
      assert |buffer| < e + 4;
      ReadSomeIsSound(arrivals, CHUNK);
      var (got, rest) := ReadSome(arrivals, CHUNK).value;
      assert buffer + (got + Flat(rest)) == buffer + got + Flat(rest);
      HeadIsFound(rest, buffer + got, total, e);
    }
  }

  lemma {:induction false} BodyIsFound(arrivals: seq<Arrival>, buffer: Bytes, expected: nat)
    requires Sound(arrivals) && |buffer| + |Flat(arrivals)| >= expected
    ensures GatherBody(arrivals, buffer, expected).Ok?
    decreases |Flat(arrivals)|
  {
    if |buffer| < expected {
      var limit := Min(expected - |buffer|, CHUNK);
      ReadSomeIsSound(arrivals, limit);
      var (got, rest) := ReadSome(arrivals, limit).value;
      BodyIsFound(rest, buffer + got, expected);
    }
  }

  /** Each byte in a piece of its own. */
  function Bytewise(s: Bytes): seq<Arrival> {
    seq(|s|, i requires 0 <= i < |s| => Got([s[i]]))
  }

  lemma {:induction false} FlatOfBytewise(s: Bytes, rest: seq<Arrival>)
    ensures Flat(Bytewise(s) + rest) == s + Flat(rest)
  {
    if s == [] {
      assert Bytewise(s) + rest == rest;
    } else {
      var arrivals := Bytewise(s) + rest;
      assert arrivals[0] == Got([s[0]]) && arrivals[1..] == Bytewise(s[1..]) + rest;
      FlatOfBytewise(s[1..], rest);
      assert s + Flat(rest) == [s[0]] + (s[1..] + Flat(rest));
    }
  }

  /** Single bytes before the end of the head are simply buffered. */
  lemma {:induction false} BytewiseIsBuffered(s: Bytes, rest: seq<Arrival>, buffer: Bytes, total: Bytes, e: nat)
    requires buffer + s <= total && FindHeaderEnd(total) == Some(e)
    requires |buffer| + |s| <= e + 3 && |buffer| + |s| <= MAX_HEADER_BYTES
    ensures GatherHead(Bytewise(s) + rest, buffer) == GatherHead(rest, buffer + s)
  {
    var arrivals := Bytewise(s) + rest;
    if s == [] {
      assert arrivals == rest && buffer + s == buffer;
    } else {
      assert buffer == total[..|buffer|];
      HeaderEndInPrefix(total, |buffer|);
      assert arrivals[0] == Got([s[0]]) && arrivals[1..] == Bytewise(s[1..]) + rest;
      assert ReadSome(arrivals, CHUNK) == Ok(([s[0]], Bytewise(s[1..]) + rest));
      assert buffer + [s[0]] + s[1..] == buffer + s;
      BytewiseIsBuffered(s[1..], rest, buffer + [s[0]], total, e);
    }
  }

  /** The head ends within the header limit, and the head reads cannot run past the message. */
  predicate PiecesDoNotMatter(heads: HeadParser, total: Bytes)
    requires FirstMessage(heads, total).Some?
  {
    var e, size := FindHeaderEnd(total).value, FirstMessage(heads, total).value.1;
    e + 4 <= MAX_HEADER_BYTES && (size == |total| || size >= e + 3 + CHUNK)
  }

  lemma AcceptedWhateverThePieces(heads: HeadParser, arrivals: seq<Arrival>)
    requires Sound(arrivals) && FirstMessage(heads, Flat(arrivals)).Some? && PiecesDoNotMatter(heads, Flat(arrivals))
    ensures ReadOutcome(heads, arrivals).Ok?
  {
    var total := Flat(arrivals);
    var e, size := FindHeaderEnd(total).value, FirstMessage(heads, total).value.1;
    assert [] + total == total;
    HeadIsFound(arrivals, [], total, e);
    var (buffer, rest) := GatherHead(arrivals, []).value;
    assert total[..|buffer|] == buffer;
    AnnouncedByPrefix(heads, total, |buffer|);
    BodyIsFound(rest, buffer, size);
  }

  /** A delivery that stops exactly at the header limit, inside the blank line. */
  lemma LateHeadCanBeRejected(total: Bytes, e: nat) returns (arrivals: seq<Arrival>)
    requires FindHeaderEnd(total) == Some(e) && e + 4 > MAX_HEADER_BYTES
    ensures Sound(arrivals) && Flat(arrivals) == total && GatherHead(arrivals, []) == Err(PayloadTooLarge)
  {
    var s, t := total[..MAX_HEADER_BYTES], total[MAX_HEADER_BYTES..];
    arrivals := Bytewise(s) + (Bytewise(t) + []);
    BytewiseDelivers(s, t);
    assert s + t == total && [] + s == s;
    BytewiseIsBuffered(s, Bytewise(t) + [], [], total, e);
    HeaderEndInPrefix(total, MAX_HEADER_BYTES);
  }

  lemma BytewiseDelivers(s: Bytes, t: Bytes)
    ensures Sound(Bytewise(s) + (Bytewise(t) + [])) && Flat(Bytewise(s) + (Bytewise(t) + [])) == s + t
  {
    FlatOfBytewise(t, []);
    FlatOfBytewise(s, Bytewise(t) + []);
    assert t + [] == t;
  }

  /** A head read that ran past the message is rejected. */
  lemma OvershootIsRejected(heads: HeadParser, arrivals: seq<Arrival>, total: Bytes, n: nat, left: seq<Arrival>)
    requires FirstMessage(heads, total).Some? && FirstMessage(heads, total).value.1 < n <= |total|
    requires GatherHead(arrivals, []) == Ok((total[..n], left))
    ensures ReadOutcome(heads, arrivals) == Err(BadRequest)
  {
    AnnouncedByPrefix(heads, total, n);
  }

  lemma LastHeadRead(s: Bytes, t: Bytes, e: nat) returns (left: seq<Arrival>)
    requires FindHeaderEnd(s + t) == Some(e) && |s| == e + 3 < MAX_HEADER_BYTES
    ensures GatherHead([Got(t)], s) == Ok((s + t[..Min(|t|, CHUNK)], left))
  {
    var total, k := s + t, Min(|t|, CHUNK);
    var rest := [Got(t)];
    assert t != [];
    assert total[..|s|] == s && total[..|s| + k] == s + t[..k];
    HeaderEndInPrefix(total, |s|);
    HeaderEndInPrefix(total, |s| + k);
    var read := ReadSome(rest, CHUNK);
    assert read.Ok? && read.value.0 == t[..k];
    left := read.value.1;
    assert GatherHead(left, s + t[..k]) == Ok((s + t[..k], left));
  }

  /** A delivery whose last head read takes as many bytes as it can. */
  function Greedy(s: Bytes, t: Bytes): seq<Arrival> {
    Bytewise(s) + [Got(t)]
  }

  lemma GreedyDelivers(s: Bytes, t: Bytes)
    requires t != []
    ensures Sound(Greedy(s, t)) && Flat(Greedy(s, t)) == s + t
  {
    FlatOfBytewise(s, [Got(t)]);
    FlatOfOne(t);
  }

  lemma GreedyOverruns(s: Bytes, t: Bytes, e: nat) returns (left: seq<Arrival>)
    requires FindHeaderEnd(s + t) == Some(e) && |s| == e + 3 < MAX_HEADER_BYTES
    ensures GatherHead(Greedy(s, t), []) == Ok((s + t[..Min(|t|, CHUNK)], left))
  {
    assert [] + s == s;
    BytewiseIsBuffered(s, [Got(t)], [], s + t, e);
    left := LastHeadRead(s, t, e);
  }

  lemma FlatOfOne(t: Bytes)
    ensures Flat([Got(t)]) == t
  {
    assert [Got(t)][1..] == [];
    assert t + [] == t;
  }

  lemma SplitSlice(total: Bytes, n: nat, k: nat)
    requires n + k <= |total|
    ensures total[..n] + total[n..][..k] == total[..n + k]
  {
  }

  lemma FailedHeadIsRejected(heads: HeadParser, arrivals: seq<Arrival>)
    requires GatherHead(arrivals, []).Err?
    ensures ReadOutcome(heads, arrivals).Err?
  {
  }

  lemma TrailingBytesCanBeRejected(heads: HeadParser, total: Bytes, e: nat, size: nat) returns (arrivals: seq<Arrival>)
    requires FindHeaderEnd(total) == Some(e) && FirstMessage(heads, total).Some? && FirstMessage(heads, total).value.1 == size
    requires e + 4 <= MAX_HEADER_BYTES && size < |total| && size < e + 3 + CHUNK
    ensures Sound(arrivals) && Flat(arrivals) == total && ReadOutcome(heads, arrivals) == Err(BadRequest)
  {
    var s, t := total[..e + 3], total[e + 3..];
    assert s + t == total;
    GreedyDelivers(s, t);
    var left := GreedyOverruns(s, t, e);
    SplitSlice(total, e + 3, Min(|t|, CHUNK));
    arrivals := Greedy(s, t);
    OvershootIsRejected(heads, arrivals, total, e + 3 + Min(|t|, CHUNK), left);
  }

  /** For every stream that starts with a well-formed message: it is accepted under every error-free
      delivery if and only if the blank line ends within the first 16384 bytes and either nothing
      follows the message or its body has at least 4095 bytes. */
  lemma AcceptanceIndependentOfPieces(heads: HeadParser, total: Bytes)
    requires FirstMessage(heads, total).Some?
    ensures PiecesDoNotMatter(heads, total) <==>
            forall arrivals :: Sound(arrivals) && Flat(arrivals) == total ==> ReadOutcome(heads, arrivals).Ok?
  {
    if PiecesDoNotMatter(heads, total) {
      forall arrivals | Sound(arrivals) && Flat(arrivals) == total ensures ReadOutcome(heads, arrivals).Ok? {
        AcceptedWhateverThePieces(heads, arrivals);
      }
    } else if FindHeaderEnd(total).value + 4 > MAX_HEADER_BYTES {
      var arrivals := LateHeadCanBeRejected(total, FindHeaderEnd(total).value);
      FailedHeadIsRejected(heads, arrivals);
    } else {
      var arrivals := TrailingBytesCanBeRejected(heads, total, FindHeaderEnd(total).value, FirstMessage(heads, total).value.1);
    }
  }

  // ---------------------------------------------------------------- both outcomes are real

  /** A delivery that ends one read exactly at the end of the head. */
  function Careful(total: Bytes, e: nat): seq<Arrival>
    requires e + 4 <= |total|
  {
    var k := Min(e + 3, MAX_HEADER_BYTES - 1);
    Bytewise(total[..k]) + CarefulTail(total[k..e + 4], total[e + 4..])
  }

  function CarefulTail(t: Bytes, rest: Bytes): seq<Arrival> {
    [Got(t)] + if rest == [] then [] else [Got(rest)]
  }

  lemma CarefulTailDelivers(t: Bytes, rest: Bytes)
    requires t != []
    ensures Sound(CarefulTail(t, rest)) && Flat(CarefulTail(t, rest)) == t + rest
    ensures Sound(CarefulTail(t, rest)[1..]) && Flat(CarefulTail(t, rest)[1..]) == rest
  {
    if rest == [] {
      FlatOfOne(t);
    } else {
      FlatOfOne(rest);
      assert CarefulTail(t, rest)[1..] == [Got(rest)];
    }
  }

  lemma CarefulDelivers(total: Bytes, e: nat)
    requires e + 4 <= |total| && e <= MAX_HEADER_BYTES
    ensures Sound(Careful(total, e)) && Flat(Careful(total, e)) == total
  {
    var k := Min(e + 3, MAX_HEADER_BYTES - 1);
    var s, t, rest := total[..k], total[k..e + 4], total[e + 4..];
    CarefulTailDelivers(t, rest);
    FlatOfBytewise(s, CarefulTail(t, rest));
    assert s + (t + rest) == total;
  }

  lemma CarefulFindsHead(total: Bytes, e: nat) returns (left: seq<Arrival>)
    requires FindHeaderEnd(total) == Some(e) && e <= MAX_HEADER_BYTES
    ensures GatherHead(Careful(total, e), []) == Ok((total[..e + 4], left))
    ensures Sound(left) && Flat(left) == total[e + 4..]
  {
    var k := Min(e + 3, MAX_HEADER_BYTES - 1);
    var s, t, rest := total[..k], total[k..e + 4], total[e + 4..];
    var tail := CarefulTail(t, rest);
    CarefulTailDelivers(t, rest);
    left := tail[1..];
    assert [] + s == s;
    BytewiseIsBuffered(s, tail, [], total, e);
    HeaderEndInPrefix(total, k);
    HeaderEndInPrefix(total, e + 4);
    assert ReadSome(tail, CHUNK) == Ok((t, left));
    assert s + t == total[..e + 4];
    assert GatherHead(left, s + t) == Ok((s + t, left));
  }

  /** Every stream that starts with a well-formed message is accepted under some error-free delivery, so
      where the pieces can matter both outcomes occur. */
  lemma SomeDeliveryIsAccepted(heads: HeadParser, total: Bytes) returns (arrivals: seq<Arrival>)
    requires FirstMessage(heads, total).Some?
    ensures Sound(arrivals) && Flat(arrivals) == total && ReadOutcome(heads, arrivals).Ok?
  {
    var e, size := FindHeaderEnd(total).value, FirstMessage(heads, total).value.1;
    arrivals := Careful(total, e);
    CarefulDelivers(total, e);
    var left := CarefulFindsHead(total, e);
    AcceptedFromHead(heads, arrivals, total, e, size, left);
  }

  lemma AcceptedFromHead(heads: HeadParser, arrivals: seq<Arrival>, total: Bytes, e: nat, size: nat, left: seq<Arrival>)
    requires FindHeaderEnd(total) == Some(e) && FirstMessage(heads, total).Some? && FirstMessage(heads, total).value.1 == size
    requires GatherHead(arrivals, []) == Ok((total[..e + 4], left)) && Sound(left) && Flat(left) == total[e + 4..]
    ensures ReadOutcome(heads, arrivals).Ok?
  {
    var buffer := total[..e + 4];
    HeaderEndInPrefix(total, e + 4);
    AnnouncedByPrefix(heads, total, e + 4);
    BodyIsFound(left, buffer, size);
    OutcomeFromParts(heads, arrivals, buffer, left, size);
  }

  lemma OutcomeFromParts(heads: HeadParser, arrivals: seq<Arrival>, buffer: Bytes, rest: seq<Arrival>, expected: nat)
    requires GatherHead(arrivals, []) == Ok((buffer, rest))
    requires Announced(heads, buffer).Ok? && Announced(heads, buffer).value.1 == expected && |buffer| <= expected
    requires GatherBody(rest, buffer, expected).Ok?
    ensures ReadOutcome(heads, arrivals).Ok?
  {
  }

  // ---------------------------------------------------------------- printed requests

  /** A printed head, the blank line and the body. */
  function Message(head: Head, body: Bytes): Bytes {
    Render(head) + CRLFCRLF + body
  }

  /** The blank line after a printed head is the first one, in whatever characters the head is written. */
  lemma RenderedHeadEnds(lib: Library, head: Head, rest: Bytes)
    requires Renderable(lib, head)
    ensures FindHeaderEnd(Render(head) + CRLFCRLF + rest) == Some(|Render(head)|)
  {
    HeadHasNoBlankLine(lib, " ", head);
    BlankLineIsFirst(Render(head), rest);
  }

  lemma BlankLineIsFirst(h: Bytes, rest: Bytes)
    requires HasNoBlankLine(h)
    ensures FindHeaderEnd(h + CRLFCRLF + rest) == Some(|h|)
  {
    var total, n := h + CRLFCRLF + rest, |h|;
    assert total[n..n + 4] == CRLFCRLF;
    assert MatchesAt(total, n);
    forall q: nat | q < n ensures !MatchesAt(total, q) {
      assert total[q] == h[q];
      if h[q] == 13 {
        assert total[q + 2] == h[q + 2];
        assert q + 4 <= |total| ==> total[q..q + 4][2] == total[q + 2];
      } else {
        assert q + 4 <= |total| ==> total[q..q + 4][0] == total[q];
      }
    }
  }

  lemma CutMessage(head: Bytes, body: Bytes, extra: Bytes)
    ensures var total := head + CRLFCRLF + body + extra;
            && total == head + CRLFCRLF + (body + extra)
            && total[..|head|] == head && total[|head| + 4..|head| + 4 + |body|] == body
  {
  }

  lemma FirstMessageOf(heads: HeadParser, total: Bytes, e: nat, head: Head, body: Bytes)
    requires FindHeaderEnd(total) == Some(e) && e <= MAX_HEADER_BYTES && heads(total[..e]) == Ok((head, |body|))
    requires e + 4 + |body| <= |total| && total[e + 4..e + 4 + |body|] == body
    ensures FirstMessage(heads, total) == Some((Request(head, body), e + 4 + |body|))
  {
  }

  lemma PrintedHeadIsParsed(lib: Library, head: Head, n: nat)
    requires DecodesUtf8(lib) && Renderable(lib, head) && BodyLength(head) == Ok(n)
    ensures ParserOf(lib)(Render(head)) == Ok((head, n))
  {
    HeadRoundTrip(lib, " ", head);
  }

  /** A printed message, whatever follows it, is the first message of its stream, for every parser that
      reads its head. */
  lemma PrintedIsFirstMessage(heads: HeadParser, lib: Library, head: Head, body: Bytes, extra: Bytes)
    requires Renderable(lib, head) && |Render(head)| <= MAX_HEADER_BYTES
    requires heads(Render(head)) == Ok((head, |body|))
    ensures FirstMessage(heads, Message(head, body) + extra) == Some((Request(head, body), |Render(head)| + 4 + |body|))
    ensures FindHeaderEnd(Message(head, body) + extra) == Some(|Render(head)|)
  {
    assert FindHeaderEnd(Render(head) + CRLFCRLF + (body + extra)) == Some(|Render(head)|) by {
      RenderedHeadEnds(lib, head, body + extra);
    }
    FirstMessageOfParts(heads, Render(head), head, body, extra);
  }

  lemma FirstMessageOfParts(heads: HeadParser, h: Bytes, head: Head, body: Bytes, extra: Bytes)
    requires FindHeaderEnd(h + CRLFCRLF + (body + extra)) == Some(|h|) && |h| <= MAX_HEADER_BYTES
    requires heads(h) == Ok((head, |body|))
    ensures FirstMessage(heads, h + CRLFCRLF + body + extra) == Some((Request(head, body), |h| + 4 + |body|))
    ensures FindHeaderEnd(h + CRLFCRLF + body + extra) == Some(|h|)
  {
    CutMessage(h, body, extra);
    FirstMessageOf(heads, h + CRLFCRLF + body + extra, |h|, head, body);
  }

  lemma PrintedIsRead(heads: HeadParser, lib: Library, head: Head, body: Bytes, arrivals: seq<Arrival>)
    requires Renderable(lib, head) && |Render(head)| + 4 <= MAX_HEADER_BYTES
    requires heads(Render(head)) == Ok((head, |body|))
    requires Sound(arrivals) && Flat(arrivals) == Message(head, body)
    ensures ReadOutcome(heads, arrivals).Ok?
    ensures ReadOutcome(heads, arrivals).value.0 == Request(head, body)
    ensures Flat(ReadOutcome(heads, arrivals).value.1) == []
  {
    assert Message(head, body) + [] == Message(head, body);
    PrintedIsFirstMessage(heads, lib, head, body, []);
    AcceptedWhateverThePieces(heads, arrivals);
    AcceptedIsFirstMessage(heads, arrivals);
  }

  /** End to end: a printed request whose head fits, cut into any pieces, is read back as it was. */
  lemma RequestRoundTrip(lib: Library, head: Head, body: Bytes, arrivals: seq<Arrival>)
    requires DecodesUtf8(lib) && Renderable(lib, head)
    requires BodyLength(head) == Ok(|body|) && |Render(head)| + 4 <= MAX_HEADER_BYTES
    requires Sound(arrivals) && Flat(arrivals) == Message(head, body)
    ensures ReadOutcome(ParserOf(lib), arrivals).Ok?
    ensures ReadOutcome(ParserOf(lib), arrivals).value.0 == Request(head, body)
    ensures Flat(ReadOutcome(ParserOf(lib), arrivals).value.1) == []
  {
    PrintedHeadIsParsed(lib, head, |body|);
    PrintedIsRead(ParserOf(lib), lib, head, body, arrivals);
  }

  lemma BothOutcomes(heads: HeadParser, total: Bytes, e: nat, size: nat) returns (accepted: seq<Arrival>, refused: seq<Arrival>)
    requires FindHeaderEnd(total) == Some(e) && FirstMessage(heads, total).Some? && FirstMessage(heads, total).value.1 == size
    requires e + 4 <= MAX_HEADER_BYTES && size < |total| && size < e + 3 + CHUNK
    ensures Sound(accepted) && Flat(accepted) == total && ReadOutcome(heads, accepted).Ok?
    ensures Sound(refused) && Flat(refused) == total && ReadOutcome(heads, refused) == Err(BadRequest)
  {
    accepted := SomeDeliveryIsAccepted(heads, total);
    refused := TrailingBytesCanBeRejected(heads, total, e, size);
  }

  lemma PrintedHasBothOutcomes(heads: HeadParser, lib: Library, head: Head, body: Bytes, extra: Bytes)
      returns (accepted: seq<Arrival>, refused: seq<Arrival>)
    requires Renderable(lib, head) && |Render(head)| + 4 <= MAX_HEADER_BYTES
    requires heads(Render(head)) == Ok((head, |body|)) && |body| < CHUNK - 1 && extra != []
    ensures Sound(accepted) && Flat(accepted) == Message(head, body) + extra && ReadOutcome(heads, accepted).Ok?
    ensures Sound(refused) && Flat(refused) == Message(head, body) + extra && ReadOutcome(heads, refused) == Err(BadRequest)
  {
    PrintedIsFirstMessage(heads, lib, head, body, extra);
    accepted, refused := BothOutcomes(heads, Message(head, body) + extra, |Render(head)|, |Render(head)| + 4 + |body|);
  }

  /** With the parser in use, two requests in a row are a stream on which the pieces matter: the first is
      accepted under one error-free delivery and refused under another, whenever its body is short. */
  lemma PipelinedRequestDependsOnPieces(lib: Library, head: Head, body: Bytes, extra: Bytes)
      returns (accepted: seq<Arrival>, refused: seq<Arrival>)
    requires DecodesUtf8(lib) && Renderable(lib, head)
    requires BodyLength(head) == Ok(|body|) && |Render(head)| + 4 <= MAX_HEADER_BYTES
    requires |body| < CHUNK - 1 && extra != []
    ensures Sound(accepted) && Flat(accepted) == Message(head, body) + extra && ReadOutcome(ParserOf(lib), accepted).Ok?
    ensures Sound(refused) && Flat(refused) == Message(head, body) + extra && ReadOutcome(ParserOf(lib), refused) == Err(BadRequest)
  {
    PrintedHeadIsParsed(lib, head, |body|);
    accepted, refused := PrintedHasBothOutcomes(ParserOf(lib), lib, head, body, extra);
  }

  /** The same for one concrete stream: an empty POST to `/` and one more byte. */
  lemma EmptyPostDependsOnPieces(lib: Library) returns (accepted: seq<Arrival>, refused: seq<Arrival>)
    requires DecodesUtf8(lib) && Accepts(lib)
    ensures Sound(accepted) && Flat(accepted) == Message(EMPTY_POST, []) + [0] && ReadOutcome(ParserOf(lib), accepted).Ok?
    ensures Sound(refused) && Flat(refused) == Message(EMPTY_POST, []) + [0]
    ensures ReadOutcome(ParserOf(lib), refused) == Err(BadRequest)
  {
    EmptyPostIsRenderable(lib);
    EmptyPostText();
    AsciiBytes(HeadText(" ", EMPTY_POST));
    accepted, refused := PipelinedRequestDependsOnPieces(lib, EMPTY_POST, [], [0]);
  }

  // ---------------------------------------------------------------- refusals

  /** Why a stream is refused: its head does not end in time, is refused itself, or is not followed by exactly
      its body. */
  predicate Refuses(heads: HeadParser, total: Bytes, error: ReadError) {
    match FindHeaderEnd(total)
    case None => error == if |total| < MAX_HEADER_BYTES then BadRequest else PayloadTooLarge
    case Some(e) =>
      || (e + 4 > MAX_HEADER_BYTES && error == PayloadTooLarge)
      || (e <= MAX_HEADER_BYTES &&
          match heads(total[..e])
          case Err(refused) => error == refused
          case Ok((_, n)) => |total| != e + 4 + n && error == BadRequest)
  }

  lemma {:induction false} HeadRefused(heads: HeadParser, arrivals: seq<Arrival>, buffer: Bytes, total: Bytes)
    requires total == buffer + Flat(arrivals) && FindHeaderEnd(buffer).None? && GatherHead(arrivals, buffer).Err?
    requires |buffer| < MAX_HEADER_BYTES + CHUNK
    ensures Refuses(heads, total, GatherHead(arrivals, buffer).error)
            || (GatherHead(arrivals, buffer).error == BadRequest && !Sound(arrivals))
    decreases |Flat(arrivals)|
  {
    assert total[..|buffer|] == buffer;
    HeaderEndInPrefix(total, |buffer|);
    if |buffer| < MAX_HEADER_BYTES && ReadSome(arrivals, CHUNK).Ok? {
      var (got, rest) := ReadSome(arrivals, CHUNK).value;
      if got == [] {
        if arrivals == [] {
          assert total == buffer;
        }
      } else {
        assert buffer + got + Flat(rest) == buffer + (got + Flat(rest));
        if FindHeaderEnd(buffer + got).None? {
          HeadRefused(heads, rest, buffer + got, total);
          if Sound(arrivals) {
            ReadSomeIsSound(arrivals, CHUNK);
          }
        }
      }
    }
  }

  lemma {:induction false} HeadLeavesSound(arrivals: seq<Arrival>, buffer: Bytes)
    requires Sound(arrivals) && GatherHead(arrivals, buffer).Ok?
    ensures Sound(GatherHead(arrivals, buffer).value.1)
    decreases |Flat(arrivals)|
  {
    if FindHeaderEnd(buffer).None? {
      ReadSomeIsSound(arrivals, CHUNK);
      var (got, rest) := ReadSome(arrivals, CHUNK).value;
      HeadLeavesSound(rest, buffer + got);
    }
  }

  lemma {:induction false} BodyRefused(arrivals: seq<Arrival>, buffer: Bytes, expected: nat)
    requires GatherBody(arrivals, buffer, expected).Err?
    ensures GatherBody(arrivals, buffer, expected) == Err(BadRequest)
    ensures |buffer| + |Flat(arrivals)| < expected || !Sound(arrivals)
    decreases |Flat(arrivals)|
  {
    var limit := Min(expected - |buffer|, CHUNK);
    if Sound(arrivals) {
      ReadSomeIsSound(arrivals, limit);
    }
    if ReadSome(arrivals, limit).Ok? && ReadSome(arrivals, limit).value.0 != [] {
      var (got, rest) := ReadSome(arrivals, limit).value;
      BodyRefused(rest, buffer + got, expected);
    }
  }

  /** Whatever the pieces, a refusal tells what is wrong with the stream, or the connection broke. */
  lemma RefusalIsExplained(heads: HeadParser, arrivals: seq<Arrival>)
    requires ReadOutcome(heads, arrivals).Err?
    ensures Refuses(heads, Flat(arrivals), ReadOutcome(heads, arrivals).error)
            || (ReadOutcome(heads, arrivals).error == BadRequest && !Sound(arrivals))
  {
    var total := Flat(arrivals);
    assert [] + total == total;
    if GatherHead(arrivals, []).Err? {
      HeadRefused(heads, arrivals, [], total);
    } else {
      var (buffer, rest) := GatherHead(arrivals, []).value;
      assert total == buffer + Flat(rest) && total[..|buffer|] == buffer;
      AnnouncedByPrefix(heads, total, |buffer|);
      if Announced(heads, buffer).Ok? {
        var (head, expected) := Announced(heads, buffer).value;
        if GatherBody(rest, buffer, expected).Err? {
          BodyRefused(rest, buffer, expected);
          if Sound(arrivals) {
            HeadLeavesSound(arrivals, []);
          }
        }
      }
    }
  }
}
