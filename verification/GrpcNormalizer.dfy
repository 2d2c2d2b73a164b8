/** Promotion of trailers-only gRPC responses into the initial header block (the Trailers-Only
    form in the Responses section of the gRPC over HTTP/2 specification), and the split back
    into headers and trailers for final-WASI HTTP. */
module GrpcNormalizer {
  import opened Common

  /** Every value of every field, by lower-case name; a present field has at least one value. */
  type Headers = map<string, seq<string>>

  /** What one poll of a response body can answer. A pending poll may wake its task at once. */
  datatype Poll =
    | Pending(wakes: bool)
    | Data(bytes: Bytes)
    | Trailers(fields: Headers)
    | End
    | Failure

  /** The answers a body will give, in order; an exhausted body keeps answering `End`. */
  type Script = seq<Poll>

  const STATUS := "grpc-status"
  const MESSAGE := "grpc-message"
  const DETAILS := "grpc-status-details-bin"
  const FAILED_BODY := "response%20body%20failed%20before%20its%20first%20frame"
  const BUDGET: nat := 8

  predicate WellFormed(h: Headers) {
    forall n :: n in h ==> h[n] != []
  }

  predicate IsEmptyData(p: Poll) {
    p.Data? && p.bytes == []
  }

  function Next(script: Script): Poll {
    if script == [] then End else script[0]
  }

  function Rest(script: Script): Script {
    if script == [] then [] else script[1..]
  }

  // ---------------------------------------------------------------- what a client observes

  datatype Ending = WithTrailers(fields: Headers) | Closed | Broken

  datatype Observation = Observation(data: Bytes, ending: Ending)

  /** A client polls until the body ends. */
  function Observe(script: Script): Observation {
    if script == [] then Observation([], Closed) else
      match script[0]
      case Pending(_) => Observe(script[1..])
      case Data(bytes) => var o := Observe(script[1..]); Observation(bytes + o.data, o.ending)
      case Trailers(fields) => Observation([], WithTrailers(fields))
      case End => Observation([], Closed)
      case Failure => Observation([], Broken)
  }

  /** Header and trailer fields in one block; where both have a name, the trailer replaces the header. */
  function Metadata(headers: Headers, ending: Ending): Headers {
    match ending
    case WithTrailers(fields) => headers + fields
    case Closed => headers
    case Broken => headers
  }

  function WithDefaultStatus(h: Headers): Headers {
    if STATUS in h then h else h[STATUS := ["0"]]
  }

  function WithFailedStatus(h: Headers): Headers {
    h[STATUS := ["13"]][MESSAGE := [FAILED_BODY]]
  }

  // ---------------------------------------------------------------- the replaying body

  /** What a wrapper with these parts will answer. */
  function Replay(first: Option<Poll>, body: Option<Script>): Script {
    (if first.Some? then [first.value] else []) + (if body.Some? then body.value else [])
  }

  class GrpcResponseBody {
    var first: Option<Poll>
    var body: Option<Script>

    constructor (first: Option<Poll>, body: Option<Script>)
      ensures this.first == first && this.body == body
    {
      this.first := first;
      this.body := body;
    }

    method PollFrame() returns (p: Poll)
      modifies this
      ensures p == Next(old(Replay(first, body)))
      ensures Replay(first, body) == Rest(old(Replay(first, body)))
      ensures first == None
    {
      if first.Some? {
        p := first.value;
        first := None;
        return;
      }
      if body.Some? {
        p := Next(body.value);
        body := Some(Rest(body.value));
      } else {
        p := End;
      }
    }
  }

  // ---------------------------------------------------------------- normalization

  datatype Response = Response(headers: Headers, first: Option<Poll>, body: Option<Script>)

  /** `finish_normalization`. */
  function Finish(headers: Headers, body: Script, decided: Poll): Response {
    match decided
    case Pending(_) => Response(headers, None, Some(body))
    case Trailers(fields) => Response(WithDefaultStatus(headers + fields), None, None)
    case Data(_) => Response(headers, Some(decided), Some(body))
    case Failure => Response(WithFailedStatus(headers), None, None)
    case End => Response(WithDefaultStatus(headers), None, None)
  }

  /** A poll the adapter may consume without deciding: an empty data frame, or a pending poll. */
  predicate Skippable(p: Poll) {
    IsEmptyData(p) || p.Pending?
  }

  /** The adapter decided on poll n after skipping the n polls before it. */
  predicate DecidedAt(script: Script, n: nat, decided: Poll, body: Script) {
    && n <= |script|
    && (forall i :: 0 <= i < n ==> Skippable(script[i]))
    && decided == Next(script[n..])
    && body == Rest(script[n..])
  }

  /** `normalize_trailers_only_response`: at most eight empty frames are dropped and at most eight
      self-woken pending polls repeated, so the body is polled at most seventeen times. A body without
      data that stays within these budgets is always promoted. */
  method NormalizeTrailersOnly(headers: Headers, script: Script) returns (r: Response, polls: nat)
    ensures 1 <= polls <= 17
    ensures exists n: nat, decided, body :: DecidedAt(script, n, decided, body) && n + 1 == polls
                                       && r == Finish(headers, body, decided)
    ensures Preserves(headers, script, r)
    ensures Quick(script) ==> r.first == None && r.body == None
  {
    var body := script;
    var repolls, discarded: nat := 0, 0;
    polls := 0;
    while true
      invariant polls == repolls + discarded <= 16 && repolls <= BUDGET && discarded <= BUDGET
      invariant polls <= |script| && body == script[polls..]
      invariant forall i :: 0 <= i < polls ==> Skippable(script[i])
      invariant Remaining(script, discarded, repolls, body)
      decreases 16 - polls
    {
      var poll := Next(body);
      ghost var before := body;
      body := Rest(body);
      polls := polls + 1;
      if IsEmptyData(poll) && discarded < BUDGET {
        SkipOne(script, discarded, repolls, before);
        discarded := discarded + 1;
        continue;
      }
      if !poll.Pending? || !poll.wakes || repolls >= BUDGET {
        assert DecidedAt(script, polls - 1, poll, body);
        DecisionPreserves(headers, script, polls - 1, poll, body);
        WithinBudgetDecides(script, discarded, repolls, before);
        r := Finish(headers, body, poll);
        return;
      }
      SkipOne(script, discarded, repolls, before);
      repolls := repolls + 1;
    }
  }

  /** A body without data, within both budgets, whose pending polls all wake their task. */
  predicate Quick(script: Script) {
    && Observe(script).data == [] && EmptyFrames(script) <= BUDGET
    && PendingPolls(script) <= BUDGET && AllWake(script)
  }

  /** What is left of a script after dropping some empty frames and repeating some pending polls. */
  predicate Remaining(script: Script, discarded: nat, repolls: nat, body: Script) {
    && EmptyFrames(script) == discarded + EmptyFrames(body)
    && PendingPolls(script) == repolls + PendingPolls(body)
    && (AllWake(script) ==> AllWake(body))
    && Observe(script) == Observe(body)
  }

  lemma SkipOne(script: Script, discarded: nat, repolls: nat, body: Script)
    requires Remaining(script, discarded, repolls, body) && Skippable(Next(body))
    ensures if IsEmptyData(Next(body)) then Remaining(script, discarded + 1, repolls, Rest(body))
            else Remaining(script, discarded, repolls + 1, Rest(body))
  {
  }

  /** In a quick body the poll that is not skipped is neither data nor pending. */
  lemma WithinBudgetDecides(script: Script, discarded: nat, repolls: nat, body: Script)
    requires Remaining(script, discarded, repolls, body)
    requires !(IsEmptyData(Next(body)) && discarded < BUDGET)
    requires Next(body).Pending? ==> !Next(body).wakes || repolls >= BUDGET
    ensures Quick(script) ==> !Next(body).Data? && !Next(body).Pending?
  {
  }

  /** `normalize_trailers_only_response_awaiting_first_frame`: pending polls are awaited, so every body
      without data and with at most eight empty frames is promoted. */
  method NormalizeAwaitingFirstFrame(headers: Headers, script: Script) returns (r: Response)
    ensures exists n: nat, decided, body :: DecidedAt(script, n, decided, body) && !decided.Pending?
                                       && r == Finish(headers, body, decided)
    ensures Preserves(headers, script, r)
    ensures Observe(script).data == [] && EmptyFrames(script) <= BUDGET ==> r.first == None && r.body == None
  {
    var body := script;
    var discarded: nat := 0;
    var decided: Poll;
    ghost var n: nat := 0;
    while true
      invariant n <= |script| && body == script[n..]
      invariant forall i :: 0 <= i < n ==> Skippable(script[i])
      invariant discarded <= BUDGET && EmptyFrames(script) == discarded + EmptyFrames(body)
      invariant Observe(script) == Observe(body)
      decreases |body|
    {
      decided := Next(body);
      if decided.Pending? || (IsEmptyData(decided) && discarded < BUDGET) {
        if !decided.Pending? {
          discarded := discarded + 1;
        }
        body := Rest(body);
        n := n + 1;
        continue;
      }
      body := Rest(body);
      break;
    }
    assert DecidedAt(script, n, decided, body);
    DecisionPreserves(headers, script, n, decided, body);
    r := Finish(headers, body, decided);
  }

  /** The number of pending polls before the body ends. */
  function PendingPolls(script: Script): nat {
    if script == [] then 0 else
      match script[0]
      case Pending(_) => 1 + PendingPolls(script[1..])
      case Data(_) => PendingPolls(script[1..])
      case _ => 0
  }

  /** Every pending poll wakes its task at once. */
  predicate AllWake(script: Script) {
    script != [] ==>
      match script[0]
      case Pending(wakes) => wakes && AllWake(script[1..])
      case Data(_) => AllWake(script[1..])
      case _ => true
  }

  /** The number of empty data frames before the body ends. */
  function EmptyFrames(script: Script): nat {
    if script == [] then 0 else
      match script[0]
      case Pending(_) => EmptyFrames(script[1..])
      case Data(bytes) => (if bytes == [] then 1 else 0) + EmptyFrames(script[1..])
      case _ => 0
  }

  // ---------------------------------------------------------------- preservation

  function TrailerFields(ending: Ending): Headers {
    match ending
    case WithTrailers(fields) => fields
    case Closed => map[]
    case Broken => map[]
  }

  /** A promoted header block, field by field: every trailer with its values, every header that no trailer
      of the same name replaces, a status, and nothing else but status 0 where neither block had one. */
  predicate Promotes(headers: Headers, fields: Headers, promoted: Headers) {
    && (forall name :: name in fields ==> name in promoted && promoted[name] == fields[name])
    && (forall name :: name in headers && name !in fields ==> name in promoted && promoted[name] == headers[name])
    && (forall name :: name in promoted && name !in headers && name !in fields ==> name == STATUS && promoted[name] == ["0"])
    && STATUS in promoted
  }

  /** There is only one such block. */
  lemma PromotionIsMerge(headers: Headers, fields: Headers, promoted: Headers)
    ensures Promotes(headers, fields, promoted) <==> promoted == WithDefaultStatus(headers + fields)
  {
    var merged := WithDefaultStatus(headers + fields);
    assert Promotes(headers, fields, merged);
    if Promotes(headers, fields, promoted) {
      forall name | name in promoted ensures name in merged && merged[name] == promoted[name] {
      }
      forall name | name in merged ensures name in promoted {
      }
      assert promoted.Keys == merged.Keys;
    }
  }

  /** What normalization owes the client, for every header block and every body: the data bytes
      are the same; a response that still streams is observed exactly as before; a promoted one carries
      the trailers in its headers; and a body that fails before its first frame becomes status 13. */
  predicate Preserves(headers: Headers, script: Script, r: Response) {
    var before, after := Observe(script), Observe(Replay(r.first, r.body));
    && after.data == before.data
    && (r.body.Some? ==> r.headers == headers && after == before)
    && (r.body.None? ==>
          && r.first == None && after == Observation([], Closed)
          && if before.ending.Broken? then r.headers == WithFailedStatus(headers)
             else Promotes(headers, TrailerFields(before.ending), r.headers))
  }

  lemma {:induction false} SkippedPollsAreInvisible(script: Script, n: nat)
    requires n <= |script|
    requires forall i :: 0 <= i < n ==> Skippable(script[i])
    ensures Observe(script) == Observe(script[n..])
  {
    if n > 0 {
      SkippedPollsAreInvisible(script[1..], n - 1);
      assert script[1..][n - 1..] == script[n..];
      assert Skippable(script[0]);
    } else {
      assert script[0..] == script;
    }
  }

  lemma DecisionPreserves(headers: Headers, script: Script, n: nat, decided: Poll, body: Script)
    requires DecidedAt(script, n, decided, body)
    ensures Preserves(headers, script, Finish(headers, body, decided))
  {
    SkippedPollsAreInvisible(script, n);
    var tail := script[n..];
    assert tail != [] ==> tail == [decided] + body;
    var r := Finish(headers, body, decided);
    match decided
    case Data(_) =>
      assert Replay(r.first, r.body) == tail;
    case Pending(_) =>
      assert Replay(r.first, r.body) == body;
      assert tail[1..] == body;
    case _ =>
      assert Replay(r.first, r.body) == [];
      var fields := TrailerFields(Observe(script).ending);
      assert headers + map[] == headers;
      PromotionIsMerge(headers, fields, WithDefaultStatus(headers + fields));
  }

  /** With header blocks free of status fields, the client reads the status it would have read:
      every status field of the trailers, and status 0 only when the trailers carry none. */
  lemma PromotionKeepsStatus(headers: Headers, script: Script, r: Response, name: string)
    requires STATUS !in headers && MESSAGE !in headers && DETAILS !in headers
    requires Preserves(headers, script, r)
    requires r.body == None && Observe(script).ending.WithTrailers?
    requires IsStatusField(name)
    ensures var t := Observe(script).ending.fields;
            && (name in t ==> name in r.headers && r.headers[name] == t[name])
            && (name !in t ==> if name == STATUS then name in r.headers && r.headers[name] == ["0"]
                               else name !in r.headers)
  {
  }

  // ---------------------------------------------------------------- what becomes of the headers

  /** Every header field is still there with its own values. */
  predicate HeadersSurvive(headers: Headers, r: Response) {
    forall name :: name in headers ==> name in r.headers && r.headers[name] == headers[name]
  }

  predicate Agree(a: Headers, b: Headers) {
    forall name :: name in a && name in b ==> a[name] == b[name]
  }

  /** The headers keep their own values exactly when nothing written over them differs: trailers agree with
      them on the names they share, and before a failed body they carry no other status or message.
      Without trailers or failure they always do. */
  lemma HeadersSurviveExactly(headers: Headers, script: Script, r: Response)
    requires Preserves(headers, script, r)
    ensures r.body.Some? ==> HeadersSurvive(headers, r)
    ensures r.body.None? ==>
              (HeadersSurvive(headers, r) <==>
                 match Observe(script).ending
                 case WithTrailers(fields) => Agree(headers, fields)
                 case Broken => Agree(headers, map[STATUS := ["13"], MESSAGE := [FAILED_BODY]])
                 case Closed => true)
  {
    if r.body.None? {
      match Observe(script).ending
      case WithTrailers(fields) => MergeSurvives(headers, fields, r);
      case Broken => FailureSurvives(headers, r);
      case Closed =>
    }
  }

  lemma MergeSurvives(headers: Headers, fields: Headers, r: Response)
    requires Promotes(headers, fields, r.headers)
    ensures HeadersSurvive(headers, r) <==> Agree(headers, fields)
  {
    if HeadersSurvive(headers, r) {
      forall name | name in headers && name in fields ensures headers[name] == fields[name] {
        assert r.headers[name] == headers[name];
      }
    }
  }

  lemma FailureSurvives(headers: Headers, r: Response)
    requires r.headers == WithFailedStatus(headers)
    ensures HeadersSurvive(headers, r) <==> Agree(headers, map[STATUS := ["13"], MESSAGE := [FAILED_BODY]])
  {
    assert |STATUS| == 11 && |MESSAGE| == 12;
    var failed := map[STATUS := ["13"], MESSAGE := [FAILED_BODY]];
    assert r.headers == headers + failed;
    if HeadersSurvive(headers, r) {
      forall name | name in headers && name in failed ensures headers[name] == failed[name] {
        assert r.headers[name] == headers[name];
      }
    }
  }

  /** A header that a trailer of the same name and other values replaces is lost, for every response that
      ends in such trailers without data. */
  lemma ReplacedHeaderIsLost(headers: Headers, fields: Headers, name: string)
    requires name in headers && name in fields && headers[name] != fields[name]
    ensures Preserves(headers, [Trailers(fields)], Finish(headers, [], Trailers(fields)))
    ensures Finish(headers, [], Trailers(fields)).headers[name] == fields[name]
    ensures !HeadersSurvive(headers, Finish(headers, [], Trailers(fields)))
  {
    var script := [Trailers(fields)];
    assert script[0..] == script && script[1..] == [];
    assert DecidedAt(script, 0, Trailers(fields), []);
    DecisionPreserves(headers, script, 0, Trailers(fields), []);
    assert Finish(headers, [], Trailers(fields)).headers[name] == fields[name];
  }

  /** One such response. */
  lemma ReplacedHeaderExists() returns (headers: Headers, fields: Headers)
    ensures WellFormed(headers) && WellFormed(fields) && !HeadersSurvive(headers, Finish(headers, [], Trailers(fields)))
  {
    headers, fields := map["x" := ["a"]], map["x" := ["b"]];
    ReplacedHeaderIsLost(headers, fields, "x");
  }

  // ---------------------------------------------------------------- the final-WASI split

  /** The header and trailer blocks of `into_final_wasi_response`; only the first value of a status
      field moves. */
  function FirstValue(h: Headers, name: string): Headers
    requires WellFormed(h)
  {
    if name in h then map[name := [h[name][0]]] else map[]
  }

  function SplitHeaders(h: Headers): Headers {
    h - {STATUS, MESSAGE, DETAILS}
  }

  function SplitTrailers(h: Headers): Headers
    requires WellFormed(h)
  {
    FirstValue(h, STATUS) + FirstValue(h, MESSAGE) + FirstValue(h, DETAILS)
  }

  predicate SingleStatusFields(h: Headers) {
    forall name :: IsStatusField(name) && name in h ==> |h[name]| == 1
  }

  /** The split loses nothing exactly when no status field has a second value. */
  lemma SplitKeepsMetadata(h: Headers)
    requires WellFormed(h)
    ensures Metadata(SplitHeaders(h), WithTrailers(SplitTrailers(h))) == h <==> SingleStatusFields(h)
    ensures forall name :: name in SplitHeaders(h) ==> name !in SplitTrailers(h)
  {
    var joined := Metadata(SplitHeaders(h), WithTrailers(SplitTrailers(h)));
    forall name ensures JoinedAt(h, name) {
      SplitAt(h, name);
    }
    if SingleStatusFields(h) {
      forall name | name in h ensures joined[name] == h[name] {
        assert JoinedAt(h, name);
      }
      assert forall name :: name in joined ==> JoinedAt(h, name) && name in h;
      assert joined == h;
    }
    if joined == h {
      forall name | IsStatusField(name) && name in h ensures |h[name]| == 1 {
        assert JoinedAt(h, name);
      }
    }
  }

  predicate IsStatusField(name: string) {
    name == STATUS || name == MESSAGE || name == DETAILS
  }

  /** One field of the split header and trailer blocks, put back together. */
  predicate JoinedAt(h: Headers, name: string)
    requires WellFormed(h)
  {
    var joined := Metadata(SplitHeaders(h), WithTrailers(SplitTrailers(h)));
    && (name in joined <==> name in h)
    && (name in h ==> joined[name] == if IsStatusField(name) then [h[name][0]] else h[name])
    && (name in SplitHeaders(h) ==> name !in SplitTrailers(h))
  }

  lemma SplitAt(h: Headers, name: string)
    requires WellFormed(h)
    ensures JoinedAt(h, name)
  {
    TrailersOf(h, name);
  }

  /** A second value of a status field is lost for every header block that has one, and the adapter can
      produce such a block from any response whose trailers repeat a status field. */
  lemma RepeatedStatusIsLost(headers: Headers, fields: Headers, name: string)
    requires WellFormed(headers) && WellFormed(fields)
    requires IsStatusField(name) && name in fields && |fields[name]| >= 2
    ensures var h := Finish(headers, [], Trailers(fields)).headers;
            && WellFormed(h) && h[name] == fields[name]
            && name in SplitTrailers(h) && SplitTrailers(h)[name] == [fields[name][0]] && name !in SplitHeaders(h)
            && Metadata(SplitHeaders(h), WithTrailers(SplitTrailers(h))) != h
  {
    var h := Finish(headers, [], Trailers(fields)).headers;
    assert h[name] == fields[name];
    TrailersOf(h, name);
    SplitKeepsMetadata(h);
    assert !SingleStatusFields(h);
  }

  /** Such a response: one message field with two values. */
  lemma RepeatedStatusExists() returns (headers: Headers, fields: Headers)
    ensures WellFormed(headers) && WellFormed(fields)
    ensures var h := Finish(headers, [], Trailers(fields)).headers;
            WellFormed(h) && Metadata(SplitHeaders(h), WithTrailers(SplitTrailers(h))) != h
  {
    headers, fields := map[], map[MESSAGE := ["a", "b"]];
    RepeatedStatusIsLost(headers, fields, MESSAGE);
  }

  /** One field of the split trailer block. */
  lemma TrailersOf(h: Headers, name: string)
    requires WellFormed(h)
    ensures name in SplitTrailers(h) <==> IsStatusField(name) && name in h
    ensures name in SplitTrailers(h) ==> SplitTrailers(h)[name] == [h[name][0]]
  {
    assert |STATUS| == 11 && |MESSAGE| == 12 && |DETAILS| == 23;
  }

  /** The header block of a promoted response. */
  lemma PromotedHeaders(headers: Headers, script: Script, r: Response)
    requires WellFormed(headers) && Preserves(headers, script, r) && r.body == None
    requires Observe(script).ending.WithTrailers? && WellFormed(Observe(script).ending.fields)
    ensures r.headers == WithDefaultStatus(headers + Observe(script).ending.fields) && WellFormed(r.headers)
  {
    PromotionIsMerge(headers, Observe(script).ending.fields, r.headers);
  }

  /** End to end for a unary error: empty frames, pending polls and then trailers, sent with status-free
      headers. The status fields of the trailers, and status 0 if they have none, reach the client as
      trailers with the same values; every other field reaches it as a header. */
  lemma ErrorStatusReachesClient(headers: Headers, script: Script, r: Response)
    requires WellFormed(headers) && STATUS !in headers && MESSAGE !in headers && DETAILS !in headers
    requires Preserves(headers, script, r) && r.body == None
    requires Observe(script).ending.WithTrailers? && WellFormed(Observe(script).ending.fields)
    requires SingleStatusFields(Observe(script).ending.fields)
    ensures WellFormed(r.headers)
    ensures var t := Observe(script).ending.fields;
            && SplitHeaders(r.headers) == (headers + t) - {STATUS, MESSAGE, DETAILS}
            && SplitTrailers(r.headers).Keys == t.Keys * {STATUS, MESSAGE, DETAILS} + {STATUS}
            && (forall name :: IsStatusField(name) && name in t ==> SplitTrailers(r.headers)[name] == t[name])
            && (STATUS !in t ==> SplitTrailers(r.headers)[STATUS] == ["0"])
            && Metadata(SplitHeaders(r.headers), WithTrailers(SplitTrailers(r.headers))) == WithDefaultStatus(headers + t)
  {
    var t := Observe(script).ending.fields;
    PromotedHeaders(headers, script, r);
    StatusFieldsOf(headers, t, r.headers);
    assert SplitHeaders(r.headers) == (headers + t) - {STATUS, MESSAGE, DETAILS};
    SplitKeepsMetadata(r.headers);
  }

  /** One status field of a promoted header block and of its split trailers. */
  lemma PromotedField(headers: Headers, t: Headers, h: Headers, name: string)
    requires WellFormed(t) && SingleStatusFields(t) && WellFormed(h) && h == WithDefaultStatus(headers + t)
    requires IsStatusField(name) && name !in headers
    ensures name in SplitTrailers(h) <==> name in t || name == STATUS
    ensures name in t ==> h[name] == t[name] == SplitTrailers(h)[name]
    ensures name !in t && name == STATUS ==> h[name] == ["0"] == SplitTrailers(h)[name]
  {
    TrailersOf(h, name);
    assert name in t ==> t[name] == [t[name][0]];
  }

  /** The split trailers of a promoted header block. */
  lemma StatusFieldsOf(headers: Headers, t: Headers, h: Headers)
    requires WellFormed(headers) && WellFormed(t) && SingleStatusFields(t)
    requires STATUS !in headers && MESSAGE !in headers && DETAILS !in headers
    requires WellFormed(h) && h == WithDefaultStatus(headers + t)
    ensures SingleStatusFields(h)
    ensures SplitTrailers(h).Keys == t.Keys * {STATUS, MESSAGE, DETAILS} + {STATUS}
    ensures forall name :: IsStatusField(name) && name in t ==> SplitTrailers(h)[name] == t[name]
    ensures STATUS !in t ==> SplitTrailers(h)[STATUS] == ["0"]
  {
    forall name | IsStatusField(name)
      ensures name in SplitTrailers(h) <==> name in t || name == STATUS
      ensures name in t ==> h[name] == t[name] == SplitTrailers(h)[name]
      ensures name !in t && name == STATUS ==> h[name] == ["0"] == SplitTrailers(h)[name]
    {
      PromotedField(headers, t, h, name);
    }
    forall name ensures name in SplitTrailers(h) ==> IsStatusField(name) && name in h {
      TrailersOf(h, name);
    }
    StatusKeys(SplitTrailers(h), t);
  }

  lemma StatusKeys(trailers: Headers, t: Headers)
    requires forall name :: name in trailers <==> IsStatusField(name) && (name in t || name == STATUS)
    ensures trailers.Keys == t.Keys * {STATUS, MESSAGE, DETAILS} + {STATUS}
  {
  }
}
