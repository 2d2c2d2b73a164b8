/** One outbound exchange over WASIp2: the request is uploaded and the response collected under a single
    absolute deadline, against a host whose every answer is arbitrary. */
module Wasip2 {
  import opened Common
  import opened Text
  import Decimal

  const MAX_DOCUMENT_BYTES: nat := 64 * 1024
  const READ_CHUNK_BYTES: nat := 8 * 1024
  /** `usize` is 32 bits wide on wasm32. */
  const USIZE_MAX: nat := 0xFFFF_FFFF

  datatype TransportError = Timeout | Canceled | Unavailable | Protocol | ResponseTooLarge

  datatype WaitError = WaitCanceled | WaitUnavailable

  /** Which of the two raced waits finished first, and how. */
  datatype Race = OperationFirst(failure: Option<WaitError>) | DeadlineFirst(failure: Option<WaitError>)

  datatype ReadAnswer = Chunk(bytes: Bytes) | Closed | ReadFailed

  /** Header values are text where they are UTF-8. */
  type Fields = seq<(string, Option<string>)>

  datatype Reply = Reply(status: nat, headers: Fields)

  /** The head of the request to send. */
  datatype Parts = Parts(
    verb: string,
    scheme: Option<string>,
    authority: Option<string>,
    path: Option<string>,
    fields: seq<(string, Bytes)>)

  datatype Scheme = Http | Https

  /** The request resource of the host, with everything set. */
  datatype Outgoing = Outgoing(
    fields: seq<(string, Bytes)>,
    verb: string,
    scheme: Scheme,
    authority: Option<string>,
    path: Option<string>)

  /** The host calls that only say yes or no. */
  datatype Setup =
    | FieldsFromList | SetVerb | SetScheme | SetAuthority | SetPath | TakeBody | OpenWriter
    | ConnectTimeout | FirstByteTimeout | BetweenBytesTimeout
    | ConsumeResponse | OpenReader

  /** What was handed to the outgoing handler: the request, its body so far, and the three timeouts. */
  datatype Handed = Handed(request: Outgoing, body: Bytes, flushed: bool, timeout: nat)

  /** Everything the host will answer, by the running number of the question. */
  datatype World = World(
    clock: nat -> nat,
    capacity: nat -> Option<nat>,
    writes: nat -> bool,
    flushes: bool,
    races: nat -> Race,
    answers: nat -> ReadAnswer,
    accepts: Setup -> bool,
    finish: Option<TransportError>,
    handle: Option<TransportError>,
    reply: Result<Reply, TransportError>,
    buildable: Reply -> bool)

  datatype ReadCall = ReadCall(requested: nat, answer: ReadAnswer)

  class Host {
    const world: World
    var ticks: nat
    var checks: nat
    var writeCalls: nat
    var raceCalls: nat
    /** The bytes that may still be written before the next capacity check. */
    var permit: nat
    var written: Bytes
    var flushed: bool
    var readCalls: seq<ReadCall>
    var handed: Option<Handed>

    constructor (world: World)
      ensures this.world == world && ticks == 0 && written == [] && !flushed && readCalls == [] && handed == None
    {
      this.world := world;
      ticks, checks, writeCalls, raceCalls, permit := 0, 0, 0, 0, 0;
      written, flushed, readCalls, handed := [], false, [], None;
    }

    method Now() returns (now: nat)
      modifies this`ticks
      ensures ticks == old(ticks) + 1 && now == world.clock(old(ticks))
    {
      now := world.clock(ticks);
      ticks := ticks + 1;
    }

    method CheckWrite() returns (capacity: Option<nat>)
      modifies this`checks, this`permit
      ensures checks == old(checks) + 1 && capacity == world.capacity(old(checks))
      ensures capacity.Some? ==> permit == capacity.value
    {
      capacity := world.capacity(checks);
      checks := checks + 1;
      permit := if capacity.Some? then capacity.value else 0;
    }

    /** Writing more than the last check permitted is a trap. */
    method Write(chunk: Bytes) returns (ok: bool)
      requires 1 <= |chunk| <= permit
      modifies this`written, this`permit, this`writeCalls
      ensures ok == world.writes(old(writeCalls))
      ensures written == if ok then old(written) + chunk else old(written)
    {
      ok := world.writes(writeCalls);
      writeCalls := writeCalls + 1;
      permit := 0;
      if ok {
        written := written + chunk;
      }
    }

    method Flush() returns (ok: bool)
      modifies this`flushed
      ensures ok == world.flushes && (ok ==> flushed)
    {
      ok := world.flushes;
      flushed := flushed || ok;
    }

    method Select() returns (race: Race)
      modifies this`raceCalls
      ensures raceCalls == old(raceCalls) + 1 && race == world.races(old(raceCalls))
    {
      race := world.races(raceCalls);
      raceCalls := raceCalls + 1;
    }

    method Read(requested: nat) returns (answer: ReadAnswer)
      requires 1 <= requested <= READ_CHUNK_BYTES
      modifies this`readCalls
      ensures answer == world.answers(|old(readCalls)|)
      ensures readCalls == old(readCalls) + [ReadCall(requested, answer)]
    {
      answer := world.answers(|readCalls|);
      readCalls := readCalls + [ReadCall(requested, answer)];
    }

    method Handle(request: Outgoing, timeout: nat) returns (failure: Option<TransportError>)
      modifies this`handed
      ensures handed == Some(Handed(request, written, flushed, timeout)) && failure == world.handle
    {
      handed := Some(Handed(request, written, flushed, timeout));
      failure := world.handle;
    }

    /** The clock was last read before the deadline. */
    predicate InTime(deadline: nat)
      reads this
    {
      ticks > 0 && world.clock(ticks - 1) < deadline
    }
  }

  ghost predicate NeverRunsBack(w: World) {
    forall i, j :: 0 <= i <= j ==> w.clock(i) <= w.clock(j)
  }

  /** The clock advances far enough, if it is read often enough. */
  ghost predicate Reaches(w: World, deadline: nat) {
    exists n: nat :: w.clock(n) >= deadline
  }

  /** The host wakes every wait. */
  ghost predicate Wakes(w: World) {
    forall k :: w.races(k) == OperationFirst(None)
  }

  /** The host answers every capacity check, takes every write and flushes. */
  ghost predicate TakesBody(w: World) {
    && (forall k :: w.capacity(k).Some?)
    && (forall k :: w.writes(k))
    && w.flushes && w.finish.None?
  }

  // ---------------------------------------------------------------- time

  /** `checked_deadline`: the deadline exists exactly when it fits in 64 bits. */
  function CheckedDeadline(now: nat, timeout: nat): Result<nat, TransportError> {
    if now + timeout <= U64_MAX then Ok(now + timeout) else Err(Timeout)
  }

  /** `checked_remaining`: the remaining time, never zero. */
  function CheckedRemaining(deadline: nat, now: nat): (r: Result<nat, TransportError>)
    ensures r.Ok? <==> now < deadline
    ensures r.Err? ==> r.error == Timeout
    ensures r.Ok? ==> r.value > 0 && now + r.value == deadline
  {
    if now < deadline then Ok(deadline - now) else Err(Timeout)
  }

  function MapWaitError(e: WaitError): TransportError {
    match e
    case WaitCanceled => Canceled
    case WaitUnavailable => Unavailable
  }

  /** `race_with_deadline`: succeeds exactly when the operation finished first and cleanly and both
      clock reads, before and after the wait, were before the deadline. */
  method RaceWithDeadline(host: Host, deadline: nat) returns (r: Result<(), TransportError>)
    modifies host`ticks, host`raceCalls
    ensures host.ticks > old(host.ticks)
    ensures r.Err? && host.InTime(deadline) ==> host.world.races(old(host.raceCalls)) != OperationFirst(None)
    ensures r.Ok? <==>
              && host.world.clock(old(host.ticks)) < deadline
              && host.world.races(old(host.raceCalls)) == OperationFirst(None)
              && host.world.clock(old(host.ticks) + 1) < deadline
    ensures r.Ok? ==> host.InTime(deadline)
    ensures r.Err? ==> r.error in {Timeout, Canceled, Unavailable}
    ensures r == Err(Canceled) ==> host.world.races(old(host.raceCalls)).failure == Some(WaitCanceled)
    ensures r == Err(Unavailable) ==> host.world.races(old(host.raceCalls)).failure == Some(WaitUnavailable)
    ensures host.world.races(old(host.raceCalls)) == DeadlineFirst(None) ==> r == Err(Timeout)
    ensures host.world.clock(old(host.ticks)) >= deadline ==> r == Err(Timeout)
  {
    var now := host.Now();
    if now >= deadline {
      return Err(Timeout);
    }
    var race := host.Select();
    match race
    case OperationFirst(failure) =>
      now := host.Now();
      if now >= deadline {
        return Err(Timeout);
      }
      match failure {
        case None => return Ok(());
        case Some(e) => return Err(MapWaitError(e));
      }
    case DeadlineFirst(failure) =>
      match failure {
        case None => return Err(Timeout);
        case Some(e) => return Err(MapWaitError(e));
      }
  }

  method RemainingUntil(host: Host, deadline: nat) returns (r: Result<nat, TransportError>)
    modifies host`ticks
    ensures host.ticks == old(host.ticks) + 1
    ensures r == CheckedRemaining(deadline, host.world.clock(old(host.ticks)))
  {
    var now := host.Now();
    r := CheckedRemaining(deadline, now);
  }

  method WaitUntil(host: Host, deadline: nat) returns (r: Result<(), TransportError>)
    modifies host`ticks, host`raceCalls
    ensures host.ticks > old(host.ticks)
    ensures r.Err? && host.InTime(deadline) ==> host.world.races(old(host.raceCalls)) != OperationFirst(None)
    ensures r.Ok? ==> host.InTime(deadline)
    ensures r.Ok? ==> host.world.races(old(host.raceCalls)) == OperationFirst(None)
    ensures r.Err? ==> r.error in {Timeout, Canceled, Unavailable}
  {
    var remaining := RemainingUntil(host, deadline);
    if remaining.Err? {
      return Err(remaining.error);
    }
    r := RaceWithDeadline(host, deadline);
  }

  // ---------------------------------------------------------------- upload

  predicate Prefix(a: Bytes, b: Bytes) {
    a <= b
  }

  /** `write_request_body`: success means that exactly the body was written, in order, then flushed, and
      that the deadline had not passed; failure leaves a prefix. Every write respects the capacity the
      host granted. Against a host that takes the body and wakes every wait, only the deadline can stop the
      upload. Terminates because the clock reaches the deadline. */
  method WriteRequestBody(host: Host, body: Bytes, deadline: nat) returns (r: Result<(), TransportError>, ghost sent: nat)
    requires NeverRunsBack(host.world) && Reaches(host.world, deadline)
    requires |body| <= USIZE_MAX
    modifies host`ticks, host`checks, host`writeCalls, host`raceCalls, host`permit, host`written, host`flushed
    ensures host.ticks >= old(host.ticks)
    ensures sent <= |body| && host.written == old(host.written) + body[..sent]
    ensures r.Ok? ==> sent == |body| && host.flushed && host.InTime(deadline)
    ensures r.Err? && Wakes(host.world) && host.InTime(deadline) ==> r.error == Unavailable && !TakesBody(host.world)
  {
    var rest := body;
    ghost var horizon: nat :| host.world.clock(horizon) >= deadline;
    sent := 0;
    while rest != []
      invariant host.ticks >= old(host.ticks)
      invariant sent <= |body| && rest == body[sent..]
      invariant host.written == old(host.written) + body[..sent]
      decreases if host.ticks <= horizon then horizon + 1 - host.ticks else 0
    {
      var remaining := RemainingUntil(host, deadline);
      if remaining.Err? {
        return Err(remaining.error), sent;
      }
      var capacity := host.CheckWrite();
      if capacity.None? {
        return Err(Unavailable), sent;
      }
      if capacity.value == 0 {
        var waited := WaitUntil(host, deadline);
        if waited.Err? {
          return waited, sent;
        }
        continue;
      }
      var permitted := if capacity.value <= USIZE_MAX then capacity.value else USIZE_MAX;
      var count := if permitted <= |rest| then permitted else |rest|;
      var ok := host.Write(rest[..count]);
      if !ok {
        return Err(Unavailable), sent;
      }
      SendMore(old(host.written), body, sent, count);
      rest, sent := rest[count..], sent + count;
    }
    var remaining := RemainingUntil(host, deadline);
    if remaining.Err? {
      return Err(remaining.error), sent;
    }
    var ok := host.Flush();
    if !ok {
      return Err(Unavailable), sent;
    }
    r := WaitUntil(host, deadline);
  }

  lemma SendMore(start: Bytes, body: Bytes, sent: nat, count: nat)
    requires sent + count <= |body|
    ensures start + body[..sent] + body[sent..][..count] == start + body[..sent + count]
    ensures body[sent..][count..] == body[sent + count..]
  {
  }

  // ---------------------------------------------------------------- collection

  /** What a read asks for: what the document may still take and one byte more, at most a chunk. */
  function RequestAfter(collected: nat): int {
    Min(MAX_DOCUMENT_BYTES + 1 - collected, READ_CHUNK_BYTES)
  }

  predicate Fits(call: ReadCall, collected: nat)
    requires call.answer.Chunk?
  {
    |call.answer.bytes| <= call.requested && collected + |call.answer.bytes| <= MAX_DOCUMENT_BYTES
  }

  /** The bytes of some read calls in order, if each asked for the room left and was answered with a chunk
      that fits. */
  function Collected(calls: seq<ReadCall>): Option<Bytes> {
    if calls == [] then Some([]) else
      var last := calls[|calls| - 1];
      match Collected(calls[..|calls| - 1])
      case None => None
      case Some(bytes) =>
        if last.requested == RequestAfter(|bytes|) && last.answer.Chunk? && Fits(last, |bytes|)
        then Some(bytes + last.answer.bytes) else None
  }

  /** The bytes collected before the last call, which asked for the room left. */
  function BeforeLast(calls: seq<ReadCall>): Option<Bytes> {
    if calls == [] then None else
      match Collected(calls[..|calls| - 1])
      case None => None
      case Some(bytes) => if 1 <= calls[|calls| - 1].requested == RequestAfter(|bytes|) then Some(bytes) else None
  }

  /** The stream closed after exactly these bytes, within the document limit. */
  predicate Closes(calls: seq<ReadCall>, bytes: Bytes) {
    BeforeLast(calls) == Some(bytes) && calls[|calls| - 1].answer == Closed && |bytes| <= MAX_DOCUMENT_BYTES
  }

  /** The last chunk exceeded its request or the document limit. */
  predicate Exceeds(calls: seq<ReadCall>) {
    && BeforeLast(calls).Some? && calls[|calls| - 1].answer.Chunk?
    && !Fits(calls[|calls| - 1], |BeforeLast(calls).value|)
  }

  /** The last read failed. */
  predicate Breaks(calls: seq<ReadCall>) {
    BeforeLast(calls).Some? && calls[|calls| - 1].answer == ReadFailed
  }

  predicate Undeliverable(calls: seq<ReadCall>, e: TransportError) {
    (e == ResponseTooLarge && Exceeds(calls)) || (e == Unavailable && Breaks(calls))
  }

  lemma OneMoreCall(calls: seq<ReadCall>, call: ReadCall, collected: Bytes)
    requires Collected(calls) == Some(collected) && 1 <= call.requested == RequestAfter(|collected|)
    ensures BeforeLast(calls + [call]) == Some(collected)
    ensures call.answer.Chunk? && Fits(call, |collected|) ==> Collected(calls + [call]) == Some(collected + call.answer.bytes)
  {
    assert (calls + [call])[..|calls + [call]| - 1] == calls;
  }

  /** `collect_response_body`: success means the stream closed after exactly the collected bytes, within
      the document limit, with every request between 1 and 8192 bytes, and before the deadline. An
      oversized answer is the only reason for `ResponseTooLarge`. While the deadline has not passed and the
      host wakes every wait, only a failed or oversized read can end the collection without success. */
  method CollectResponseBody(host: Host, deadline: nat) returns (r: Result<Bytes, TransportError>, ghost calls: seq<ReadCall>)
    requires NeverRunsBack(host.world) && Reaches(host.world, deadline)
    modifies host`ticks, host`raceCalls, host`readCalls
    ensures host.readCalls == old(host.readCalls) + calls
    ensures r.Ok? ==> Closes(calls, r.value) && host.InTime(deadline) && host.ticks > old(host.ticks) + |calls|
    ensures r == Err(ResponseTooLarge) ==> Exceeds(calls)
    ensures r.Err? && Wakes(host.world) && host.InTime(deadline) ==> Undeliverable(calls, r.error)
  {
    var collected: Bytes := [];
    calls := [];
    ghost var horizon: nat :| host.world.clock(horizon) >= deadline;
    while true
      invariant host.readCalls == old(host.readCalls) + calls
      invariant Collected(calls) == Some(collected) && |collected| <= MAX_DOCUMENT_BYTES
      invariant host.ticks >= old(host.ticks) + |calls|
      decreases if host.ticks <= horizon then horizon + 1 - host.ticks else 0
    {
      var remaining := RemainingUntil(host, deadline);
      if remaining.Err? {
        return Err(remaining.error), calls;
      }
      var room := MAX_DOCUMENT_BYTES + 1 - |collected|;
      var requested := if room <= READ_CHUNK_BYTES then room else READ_CHUNK_BYTES;
      var answer := host.Read(requested);
      ghost var earlier := calls;
      calls := calls + [ReadCall(requested, answer)];
      OneMoreCall(earlier, calls[|calls| - 1], collected);
      match answer
      case Chunk(bytes) =>
        if bytes == [] {
          assert collected + bytes == collected;
          var waited := WaitUntil(host, deadline);
          if waited.Err? {
            return Err(waited.error), calls;
          }
        } else {
          if |bytes| > requested || |collected| + |bytes| > MAX_DOCUMENT_BYTES {
            return Err(ResponseTooLarge), calls;
          }
          collected := collected + bytes;
        }
      case Closed =>
        remaining := RemainingUntil(host, deadline);
        if remaining.Err? {
          return Err(remaining.error), calls;
        }
        return Ok(collected), calls;
      case ReadFailed =>
        return Err(Unavailable), calls;
    }
  }

  // ---------------------------------------------------------------- declared length

  const CONTENT_LENGTH := "content-length"

  /** The values of all Content-Length fields, in order. */
  function DeclaredValues(headers: Fields): seq<Option<string>> {
    if headers == [] then [] else
      var n := |headers| - 1;
      DeclaredValues(headers[..n]) + (if Lower(headers[n].0) == CONTENT_LENGTH then [headers[n].1] else [])
  }

  function ParseLength(value: Option<string>): Result<nat, TransportError> {
    match value
    case None => Err(Protocol)
    case Some(text) =>
      var trimmed := Trim(text);
      if trimmed == [] || !Decimal.AllDigits(trimmed) then Err(Protocol)
      else if Decimal.Value(trimmed) > U64_MAX then Err(ResponseTooLarge)
      else if Decimal.Value(trimmed) > MAX_DOCUMENT_BYTES then Err(ResponseTooLarge)
      else Ok(Decimal.Value(trimmed))
  }

  /** `declared_content_length`: no field means no declaration, one field means its number, and a second
      field, whatever it says, is a protocol error. */
  method DeclaredContentLength(headers: Fields) returns (r: Result<Option<nat>, TransportError>)
    ensures r == Ok(None) <==> DeclaredValues(headers) == []
    ensures r.Ok? && r.value.Some? <==> |DeclaredValues(headers)| == 1 && ParseLength(DeclaredValues(headers)[0]).Ok?
    ensures r.Ok? && r.value.Some? ==> Ok(r.value.value) == ParseLength(DeclaredValues(headers)[0])
    ensures r.Err? ==> DeclaredValues(headers) != []
                       && r.error == (match ParseLength(DeclaredValues(headers)[0]) case Ok(_) => Protocol case Err(e) => e)
  {
    var declared: Option<nat> := None;
    for i := 0 to |headers|
      invariant declared.None? <==> DeclaredValues(headers[..i]) == []
      invariant declared.Some? ==> |DeclaredValues(headers[..i])| == 1
                                   && ParseLength(DeclaredValues(headers[..i])[0]) == Ok(declared.value)
    {
      assert headers[..i + 1][..i] == headers[..i];
      DeclaredValuesGrow(headers, i + 1);
      if Lower(headers[i].0) != CONTENT_LENGTH {
        continue;
      }
      if declared.Some? {
        return Err(Protocol);
      }
      var parsed := ParseLength(headers[i].1);
      if parsed.Err? {
        return Err(parsed.error);
      }
      declared := Some(parsed.value);
    }
    assert headers[..|headers|] == headers;
    return Ok(declared);
  }

  lemma {:induction false} DeclaredValuesGrow(headers: Fields, n: nat)
    requires n <= |headers|
    ensures DeclaredValues(headers[..n]) <= DeclaredValues(headers)
  {
    if n < |headers| {
      DeclaredValuesGrow(headers[..|headers| - 1], n);
      assert headers[..|headers| - 1][..n] == headers[..n];
    } else {
      assert headers[..n] == headers;
    }
  }

  /** Every length up to the document limit, printed in decimal, is read back, every other number is too
      large. */
  lemma DeclaredLengthRoundTrip(n: nat)
    ensures ParseLength(Some(Decimal.Print(n))) == if n <= 65536 then Ok(n) else Err(ResponseTooLarge)
  {
    Decimal.ValueOfPrint(n);
    Decimal.TrimOfDigits(Decimal.Print(n));
  }

  /** A value that is no text, or not a number between white space, is a protocol error. */
  lemma LengthRefusal(value: Option<string>)
    ensures ParseLength(value) == Err(Protocol) <==>
            (value.Some? ==> !exists pre, digits, post :: IsNumber(value.value, pre, digits, post))
  {
    if value.Some? {
      var text := value.value;
      if ParseLength(value) != Err(Protocol) {
        var pre, post := StripParts(IsWhitespace, text);
        assert IsNumber(text, pre, Trim(text), post);
      }
      if pre, digits, post :| IsNumber(text, pre, digits, post) {
        assert Decimal.IsDigit(digits[0]) && Decimal.IsDigit(digits[|digits| - 1]);
        StripOf(IsWhitespace, pre, digits, post);
      }
    }
  }

  predicate IsNumber(text: string, pre: string, digits: string, post: string) {
    && text == pre + digits + post && digits != [] && Decimal.AllDigits(digits)
    && All(IsWhitespace, pre) && All(IsWhitespace, post)
  }

  // ---------------------------------------------------------------- the exchange

  datatype Response = Response(status: nat, headers: Fields, body: Bytes)

  function SchemeOf(scheme: Option<string>): Option<Scheme> {
    if scheme == Some("http") then Some(Http) else if scheme == Some("https") then Some(Https) else None
  }

  function NameOf(scheme: Scheme): string {
    match scheme case Http => "http" case Https => "https"
  }

  lemma SchemeIsNamed(scheme: Option<string>, known: Scheme)
    ensures SchemeOf(scheme) == Some(known) <==> scheme == Some(NameOf(known))
  {
    assert "http" != "https" by {
      assert |"http"| != |"https"|;
    }
  }

  /** The host takes every part of the request head, and the scheme is one it knows. */
  predicate Preparable(w: World, parts: Parts) {
    && SchemeOf(parts.scheme).Some?
    && w.accepts(FieldsFromList) && w.accepts(SetVerb) && w.accepts(SetScheme) && w.accepts(SetAuthority)
    && w.accepts(SetPath) && w.accepts(TakeBody) && w.accepts(OpenWriter)
  }

  function OutgoingOf(parts: Parts): Outgoing
    requires SchemeOf(parts.scheme).Some?
  {
    Outgoing(parts.fields, parts.verb, SchemeOf(parts.scheme).value, parts.authority, parts.path)
  }

  /** The request resource is built up to the opened body, or not at all. */
  method Prepare(w: World, parts: Parts) returns (r: Result<Outgoing, TransportError>)
    ensures r == if Preparable(w, parts) then Ok(OutgoingOf(parts)) else Err(Protocol)
  {
    if !w.accepts(FieldsFromList) {
      return Err(Protocol);
    }
    if !w.accepts(SetVerb) {
      return Err(Protocol);
    }
    var scheme := SchemeOf(parts.scheme);
    if scheme.None? {
      return Err(Protocol);
    }
    if !w.accepts(SetScheme) {
      return Err(Protocol);
    }
    if !w.accepts(SetAuthority) {
      return Err(Protocol);
    }
    if !w.accepts(SetPath) {
      return Err(Protocol);
    }
    if !w.accepts(TakeBody) || !w.accepts(OpenWriter) {
      return Err(Protocol);
    }
    return Ok(Outgoing(parts.fields, parts.verb, scheme.value, parts.authority, parts.path));
  }

  /** The host takes the whole request. */
  ghost predicate TakesRequest(w: World, parts: Parts) {
    && Preparable(w, parts) && TakesBody(w)
    && TakesTimeouts(w) && w.handle.None?
  }

  predicate TakesTimeouts(w: World) {
    w.accepts(ConnectTimeout) && w.accepts(FirstByteTimeout) && w.accepts(BetweenBytesTimeout)
  }

  /** The upload and the hand-over to the host: nothing is handed over before the whole body is written
      and flushed in time, and the three timeouts are what is left of the one deadline. */
  method StartExchange(host: Host, parts: Parts, body: Bytes, deadline: nat) returns (r: Result<(), TransportError>)
    requires NeverRunsBack(host.world) && Reaches(host.world, deadline) && |body| <= USIZE_MAX
    requires host.written == [] && host.handed == None
    modifies host`ticks, host`checks, host`writeCalls, host`raceCalls, host`permit, host`written, host`flushed, host`handed
    ensures Prefix(host.written, body)
    ensures !Preparable(host.world, parts) ==> r == Err(Protocol) && host.written == []
    ensures host.handed.Some? ==>
              && Preparable(host.world, parts) && host.handed.value.request == OutgoingOf(parts)
              && host.handed.value.body == body && host.handed.value.flushed
              && 0 < host.handed.value.timeout && host.InTime(deadline)
              && host.world.clock(host.ticks - 1) + host.handed.value.timeout == deadline
    ensures r.Ok? ==> host.handed.Some? && host.written == body && host.flushed
    ensures TakesRequest(host.world, parts) && Wakes(host.world) && host.InTime(deadline) ==> r.Ok?
    ensures r.Ok? ==> TakesTimeouts(host.world) && host.world.handle.None?
    ensures r.Err? && TakesBody(host.world) && Wakes(host.world) && host.InTime(deadline) && !TakesTimeouts(host.world) ==> r.error == Protocol
  {
    var prepared := Prepare(host.world, parts);
    if prepared.Err? {
      return Err(prepared.error);
    }
    var upload, sent := WriteRequestBody(host, body, deadline);
    assert [] + body[..sent] == body[..sent] && body[..|body|] == body;
    if upload.Err? {
      return Err(upload.error);
    }
    if host.world.finish.Some? {
      return Err(host.world.finish.value);
    }
    var remaining := RemainingUntil(host, deadline);
    if remaining.Err? {
      return Err(remaining.error);
    }
    if !host.world.accepts(ConnectTimeout) || !host.world.accepts(FirstByteTimeout) || !host.world.accepts(BetweenBytesTimeout) {
      return Err(Protocol);
    }
    var failure := host.Handle(prepared.value, remaining.value);
    if failure.Some? {
      return Err(failure.value);
    }
    return Ok(());
  }

  /** A collected body agrees with the declared length, if there is one. */
  predicate AgreesWithDeclared(headers: Fields, body: Bytes) {
    || DeclaredValues(headers) == []
    || (|DeclaredValues(headers)| == 1 && ParseLength(DeclaredValues(headers)[0]) == Ok(|body|))
  }

  /** The host has an answer, a response can be built from it, and it declares at most one length, a readable one. */
  predicate Answers(w: World) {
    && w.reply.Ok? && w.buildable(w.reply.value)
    && w.accepts(ConsumeResponse) && w.accepts(OpenReader)
    && var declared := DeclaredValues(w.reply.value.headers);
       declared == [] || (|declared| == 1 && ParseLength(declared[0]).Ok?)
  }

  /** The body could not be read, or is not as long as declared. */
  predicate RefusedFor(headers: Fields, calls: seq<ReadCall>, e: TransportError) {
    || Undeliverable(calls, e)
    || (e == Protocol && BeforeLast(calls).Some? && !AgreesWithDeclared(headers, BeforeLast(calls).value))
  }

  /** The answer of the host, its body and the response built from both. */
  method FinishExchange(host: Host, deadline: nat) returns (r: Result<Response, TransportError>, ghost calls: seq<ReadCall>)
    requires NeverRunsBack(host.world) && Reaches(host.world, deadline)
    modifies host`ticks, host`raceCalls, host`readCalls
    ensures host.readCalls == old(host.readCalls) + calls
    ensures r.Ok? ==>
              && host.world.reply == Ok(Reply(r.value.status, r.value.headers)) && host.world.buildable(host.world.reply.value)
              && Closes(calls, r.value.body) && AgreesWithDeclared(r.value.headers, r.value.body)
              && host.InTime(deadline)
    ensures host.world.reply.Err? && calls == [] && r.Err? ==> r.error in {Timeout, Canceled, Unavailable, host.world.reply.error}
    ensures r.Ok? ==> Answers(host.world)
    ensures r.Err? && Answers(host.world) && Wakes(host.world) && host.InTime(deadline) ==>
              RefusedFor(host.world.reply.value.headers, calls, r.error)
    ensures r.Err? && Wakes(host.world) && host.InTime(deadline) && host.world.reply.Ok? && r.error != Protocol ==>
              Undeliverable(calls, r.error) || DeclaredValues(host.world.reply.value.headers) != []
  {
    calls := [];
    var waited := WaitUntil(host, deadline);
    if waited.Err? {
      return Err(waited.error), [];
    }
    if host.world.reply.Err? {
      return Err(host.world.reply.error), [];
    }
    var reply := host.world.reply.value;
    var declared := DeclaredContentLength(reply.headers);
    if declared.Err? {
      return Err(declared.error), [];
    }
    if !host.world.accepts(ConsumeResponse) || !host.world.accepts(OpenReader) {
      return Err(Protocol), [];
    }
    var collected;
    collected, calls := CollectResponseBody(host, deadline);
    if collected.Err? {
      return Err(collected.error), calls;
    }
    if declared.value.Some? && declared.value.value != |collected.value| {
      return Err(Protocol), calls;
    }
    if !host.world.buildable(reply) {
      return Err(Protocol), calls;
    }
    return Ok(Response(reply.status, reply.headers, collected.value)), calls;
  }

  /** `send_request`: a request the host does not take is a protocol error before a byte is written. The
      host is handed exactly the request, after its whole body was written and flushed, with what is left
      of the one deadline fixed at the start. A successful exchange collected exactly the bytes the host
      delivered until the stream closed, agrees with a declared length, stays within the document limit
      and ended before that deadline. Against a host that takes the request, wakes every wait and has a
      well-formed answer, an exchange in time fails only for a read that failed, exceeded its request or the
      document limit, or for a body that is not as long as declared. */
  method SendRequest(host: Host, parts: Parts, body: Bytes, timeout: nat)
    returns (r: Result<Response, TransportError>, ghost calls: seq<ReadCall>)
    requires NeverRunsBack(host.world) && |body| <= USIZE_MAX
    requires host.ticks == 0 && host.written == [] && host.readCalls == [] && host.handed == None
    requires Reaches(host.world, host.world.clock(0) + timeout)
    modifies host
    ensures Prefix(host.written, body)
    ensures host.readCalls == calls
    ensures host.world.clock(0) + timeout > U64_MAX ==> r == Err(Timeout) && host.written == [] && host.handed == None
    ensures host.world.clock(0) + timeout <= U64_MAX && !Preparable(host.world, parts) ==>
              r == Err(Protocol) && host.written == [] && host.handed == None
    ensures host.handed.Some? ==>
              && Preparable(host.world, parts) && host.handed.value.request == OutgoingOf(parts)
              && host.handed.value.body == body && host.handed.value.flushed
              && 0 < host.handed.value.timeout <= timeout
    ensures r.Ok? ==>
              && host.handed.Some? && host.written == body && host.flushed
              && host.InTime(host.world.clock(0) + timeout)
              && host.world.reply == Ok(Reply(r.value.status, r.value.headers))
              && Closes(calls, r.value.body)
              && AgreesWithDeclared(r.value.headers, r.value.body)
    ensures r.Err? && host.world.clock(0) + timeout <= U64_MAX && host.InTime(host.world.clock(0) + timeout)
            && TakesRequest(host.world, parts) && Answers(host.world) && Wakes(host.world) ==>
              RefusedFor(host.world.reply.value.headers, calls, r.error)
  {
    calls := [];
    var now := host.Now();
    var deadline := CheckedDeadline(now, timeout);
    if deadline.Err? {
      return Err(deadline.error), [];
    }
    var started := StartExchange(host, parts, body, deadline.value);
    if started.Err? {
      return Err(started.error), [];
    }
    r, calls := FinishExchange(host, deadline.value);
  }
}
