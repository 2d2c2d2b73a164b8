/** The signed context that the native ingress hands to the guest: a sealed envelope is bound
    to audience, HTTP method, path and request id, and is fresh for a few seconds. */
module TrustedContext {
  import opened Common
  import opened Text
  import opened Context
  import Base64Url

  const MAX_HEADER_BYTES: nat := 32 * 1024
  const MAX_PATH_BYTES: nat := 2048
  const VERSION: Byte := 1
  const DOMAIN: string := "wasi-auth:trusted-context:v1\0"

  datatype TrustError = InvalidEnvelope | Expired | BindingMismatch | InvalidContext

  datatype Payload = Payload(
    version: Byte,
    audience: string,
    verb: string,
    path: string,
    sealedAt: U64,
    userId: string,
    issuer: string,
    systemAdministrator: bool,
    organizationId: Option<string>,
    sessionId: string,
    requestId: string,
    assurance: Assurance,
    issuedAt: U64,
    expiresAt: U64,
    decisionId: Option<string>,
    policyRevision: Option<string>,
    permissions: seq<string>,
    roleIds: seq<string>,
    consistencyToken: Option<string>)

  datatype Codec = Codec(audience: string, key: Bytes, maxAge: nat)

  /** Library functions: HMAC-SHA-256 (RFC 2104) and the derived JSON printer and parser. */
  datatype Library = Library(
    hmac: (Bytes, Bytes) -> Bytes,
    toJson: Payload -> Bytes,
    fromJson: Bytes -> Option<Payload>)

  /** Parsing undoes printing, for every payload. */
  ghost predicate Faithful(lib: Library) {
    forall p: Payload :: lib.fromJson(lib.toJson(p)) == Some(p)
  }

  predicate ValidPath(path: string) {
    path != [] && Utf8Len(path) <= MAX_PATH_BYTES && path[0] == '/' && !HasControl(path)
  }

  function Tag(lib: Library, codec: Codec, payload: string): Bytes {
    lib.hmac(codec.key, Utf8(DOMAIN) + Utf8(payload))
  }

  ghost function PayloadOf(codec: Codec, c: RequestContext, verb: string, path: string, now: U64): Payload {
    Payload(VERSION, codec.audience, verb, path, now,
            c.auth.principal.userId, c.auth.principal.issuer, c.auth.principal.systemAdministrator,
            c.auth.organizationId, c.auth.sessionId, c.auth.requestId, c.auth.assurance,
            c.auth.issuedAt, c.auth.expiresAt, c.auth.decisionId, c.auth.policyRevision,
            Listing(c.authorization.permissions), Listing(c.authorization.roleIds),
            c.authorization.consistencyToken)
  }

  ghost function PayloadText(lib: Library, codec: Codec, c: RequestContext, verb: string, path: string, now: U64): string {
    Base64Url.Encode(lib.toJson(PayloadOf(codec, c, verb, path, now)))
  }

  function EnvelopeFor(lib: Library, codec: Codec, payload: string): string {
    payload + "." + Base64Url.Encode(Tag(lib, codec, payload))
  }

  ghost function Seal(lib: Library, codec: Codec, c: RequestContext, verb: string, path: string, now: U64): Result<string, TrustError> {
    if !ValidPath(path) then Err(BindingMismatch)
    else if c.auth.expiresAt <= now then Err(Expired)
    else if c.auth.policyRevision != c.authorization.policyRevision then Err(InvalidContext)
    else
      var payload := PayloadText(lib, codec, c, verb, path, now);
      var envelope := EnvelopeFor(lib, codec, payload);
      if Utf8Len(envelope) > MAX_HEADER_BYTES then Err(InvalidEnvelope) else Ok(envelope)
  }

  /** `split_once('.')` with a right part free of dots. */
  function SplitAtOnlyDot(s: string): (r: Option<(string, string)>)
    ensures r.Some? ==> s == r.value.0 + "." + r.value.1 && '.' !in r.value.0 && '.' !in r.value.1
  {
    if s == [] then None
    else if s[0] == '.' then
      if '.' in s[1..] then None else Some(([], s[1..]))
    else
      match SplitAtOnlyDot(s[1..])
      case None => None
      case Some((left, right)) => Some(([s[0]] + left, right))
  }

  /** The authenticated payload text of an envelope, if its signature verifies. */
  function Authenticated(lib: Library, codec: Codec, envelope: string): Option<string> {
    match SplitAtOnlyDot(envelope)
    case None => None
    case Some((payload, signature)) =>
      if Base64Url.Decode(signature) == Some(Tag(lib, codec, payload)) then Some(payload) else None
  }

  predicate BoundTo(p: Payload, codec: Codec, verb: string, path: string, requestId: string) {
    && p.version == VERSION && p.audience == codec.audience
    && p.verb == verb && p.path == path && p.requestId == requestId
  }

  predicate Fresh(p: Payload, codec: Codec, now: U64) {
    && p.sealedAt <= SaturatingAdd(now, 1)
    && SaturatingSub(now, p.sealedAt) <= codec.maxAge
    && now < p.expiresAt
  }

  /** Every identifier of the payload is accepted by its constructor, which keeps it as it is. */
  predicate IdentifiersAccepted(p: Payload) {
    && IsOptionalIdentifier(p.policyRevision) && IsIdentifier(p.userId) && IsOptionalIdentifier(p.organizationId)
    && IsIdentifier(p.sessionId) && IsIdentifier(p.requestId) && IsOptionalIdentifier(p.decisionId)
    && CheckAll(p.roleIds).Ok?
  }

  function RebuildAuth(p: Payload): Result<AuthContext, ContextError> {
    match NewPrincipal(p.userId, p.issuer, p.systemAdministrator)
    case Err(e) => Err(e)
    case Ok(principal) =>
      FromValidated(AuthContext(principal, p.organizationId, p.sessionId, p.requestId, p.assurance,
                                p.issuedAt, p.expiresAt, p.decisionId, p.policyRevision))
  }

  /** Rebuilds the context through the validated constructors. */
  ghost function Rebuild(p: Payload): Result<RequestContext, TrustError> {
    if !IdentifiersAccepted(p) || RebuildAuth(p).Err? then Err(InvalidContext)
    else match NewAuthorization(p.permissions, p.roleIds, p.policyRevision, p.consistencyToken)
      case Err(_) => Err(InvalidContext)
      case Ok(authorization) => Ok(RequestContext(RebuildAuth(p).value, authorization))
  }

  /** The decision on an authenticated payload. */
  ghost function Accept(p: Payload, codec: Codec, verb: string, path: string, requestId: string, now: U64): Result<RequestContext, TrustError> {
    if !BoundTo(p, codec, verb, path, requestId) then Err(BindingMismatch)
    else if !Fresh(p, codec, now) then Err(Expired)
    else Rebuild(p)
  }

  function Decoded(lib: Library, text: string): Option<Payload> {
    match Base64Url.Decode(text)
    case None => None
    case Some(bytes) => lib.fromJson(bytes)
  }

  ghost function Open(lib: Library, codec: Codec, envelope: string, verb: string, path: string,
                      requestId: string, now: U64): Result<RequestContext, TrustError> {
    if !ValidPath(path) then Err(BindingMismatch)
    else if Utf8Len(envelope) > MAX_HEADER_BYTES then Err(InvalidEnvelope)
    else match Authenticated(lib, codec, envelope)
      case None => Err(InvalidEnvelope)
      case Some(text) =>
        match Decoded(lib, text)
        case None => Err(InvalidEnvelope)
        case Some(p) => Accept(p, codec, verb, path, requestId, now)
  }

  // ---------------------------------------------------------------- round trip

  lemma {:induction false} SplitOfJoin(left: string, right: string)
    requires '.' !in left && '.' !in right
    ensures SplitAtOnlyDot(left + "." + right) == Some((left, right))
  {
    var s := left + "." + right;
    if left == [] {
      assert s[1..] == right;
    } else {
      SplitOfJoin(left[1..], right);
      assert s[1..] == left[1..] + "." + right;
      assert left == [left[0]] + left[1..];
    }
  }

  lemma EncodeHasNoDot(b: Bytes)
    ensures '.' !in Base64Url.Encode(b)
  {
    Base64Url.EncodeShape(b);
  }

  lemma RebuildOfPayload(codec: Codec, c: RequestContext, verb: string, path: string, now: U64)
    requires Valid(c) && c.auth.policyRevision == c.authorization.policyRevision
    ensures Rebuild(PayloadOf(codec, c, verb, path, now)) == Ok(c)
  {
    RebuildFromLists(PayloadOf(codec, c, verb, path, now), c);
  }

  /** Lists with the right elements give back the sets they were made from. */
  lemma RebuildFromLists(p: Payload, c: RequestContext)
    requires Valid(c) && c.auth.policyRevision == c.authorization.policyRevision
    requires p.userId == c.auth.principal.userId
    requires RebuildAuth(p) == Ok(c.auth)
    requires Elements(p.permissions) == c.authorization.permissions && Elements(p.roleIds) == c.authorization.roleIds
    requires p.organizationId == c.auth.organizationId && p.sessionId == c.auth.sessionId
    requires p.requestId == c.auth.requestId && p.decisionId == c.auth.decisionId
    requires p.policyRevision == c.auth.policyRevision && p.consistencyToken == c.authorization.consistencyToken
    ensures Rebuild(p) == Ok(c)
  {
    forall v | v in p.permissions ensures IsIdentifier(v) {
      assert v in Elements(p.permissions);
    }
    forall v | v in p.roleIds ensures IsIdentifier(v) {
      assert v in Elements(p.roleIds);
    }
    CheckAllAccepts(p.permissions);
    CheckAllAccepts(p.roleIds);
  }

  lemma SealedTextAuthenticates(lib: Library, codec: Codec, text: string)
    requires '.' !in text
    ensures Authenticated(lib, codec, EnvelopeFor(lib, codec, text)) == Some(text)
  {
    EncodeHasNoDot(Tag(lib, codec, text));
    SplitOfJoin(text, Base64Url.Encode(Tag(lib, codec, text)));
    Base64Url.DecodeOfEncode(Tag(lib, codec, text));
  }

  /** Within the replay window of a context sealed at t. */
  predicate InWindow(codec: Codec, c: RequestContext, t: U64, now: U64) {
    t - 1 <= now <= t + codec.maxAge && now < c.auth.expiresAt
  }

  lemma SealProducesEnvelope(lib: Library, sealer: Codec, opener: Codec, c: RequestContext, verb: string,
                             path: string, t: U64, envelope: string)
    requires sealer.key == opener.key
    requires Seal(lib, sealer, c, verb, path, t) == Ok(envelope)
    ensures Utf8Len(envelope) <= MAX_HEADER_BYTES && ValidPath(path)
    ensures c.auth.policyRevision == c.authorization.policyRevision
    ensures envelope == EnvelopeFor(lib, opener, PayloadText(lib, sealer, c, verb, path, t))
  {
  }

  lemma PayloadTextDecodes(lib: Library, codec: Codec, c: RequestContext, verb: string, path: string, t: U64)
    requires Faithful(lib)
    ensures '.' !in PayloadText(lib, codec, c, verb, path, t)
    ensures Decoded(lib, PayloadText(lib, codec, c, verb, path, t)) == Some(PayloadOf(codec, c, verb, path, t))
  {
    var p := PayloadOf(codec, c, verb, path, t);
    EncodeHasNoDot(lib.toJson(p));
    Base64Url.DecodeOfEncode(lib.toJson(p));
  }

  lemma AcceptOfPayload(sealer: Codec, opener: Codec, c: RequestContext, verb: string, path: string, t: U64,
                        verb': string, path': string, requestId: string, now: U64)
    requires Valid(c) && c.auth.policyRevision == c.authorization.policyRevision
    ensures Accept(PayloadOf(sealer, c, verb, path, t), opener, verb', path', requestId, now) ==
            if sealer.audience != opener.audience || verb != verb' || path != path' || c.auth.requestId != requestId
            then Err(BindingMismatch)
            else if !InWindow(opener, c, t, now) then Err(Expired)
            else Ok(c)
  {
    RebuildOfPayload(sealer, c, verb, path, t);
  }

  /** What opening a sealed envelope returns, for every binding and time, when the opener holds
      the same key: the sealed context exactly when everything matches inside the window. */
  lemma OpenOfSeal(lib: Library, sealer: Codec, opener: Codec, c: RequestContext, verb: string, path: string, t: U64,
                   envelope: string, verb': string, path': string, requestId: string, now: U64)
    requires Faithful(lib) && Valid(c)
    requires sealer.key == opener.key
    requires Seal(lib, sealer, c, verb, path, t) == Ok(envelope)
    ensures Open(lib, opener, envelope, verb', path', requestId, now) ==
            if sealer.audience != opener.audience || verb != verb' || path != path' || c.auth.requestId != requestId
            then Err(BindingMismatch)
            else if !InWindow(opener, c, t, now) then Err(Expired)
            else Ok(c)
  {
    var text := PayloadText(lib, sealer, c, verb, path, t);
    SealProducesEnvelope(lib, sealer, opener, c, verb, path, t, envelope);
    if ValidPath(path') {
      PayloadTextDecodes(lib, sealer, c, verb, path, t);
      SealedTextAuthenticates(lib, opener, text);
      OpenReads(lib, opener, envelope, text, verb', path', requestId, now);
      AcceptOfPayload(sealer, opener, c, verb, path, t, verb', path', requestId, now);
    }
  }

  // ---------------------------------------------------------------- when sealing succeeds

  /** A path is bound to only if it is absolute, at most 2048 bytes long and free of control characters. */
  predicate IsAbsolutePath(path: string) {
    path != [] && path[0] == '/' && |Utf8(path)| <= 2048 && forall c :: c in path ==> !IsControl(c)
  }

  lemma PathIsAbsolute(path: string)
    ensures ValidPath(path) <==> IsAbsolutePath(path)
  {
  }

  lemma SymbolIsAscii(c: char)
    ensures Base64Url.Digit(c) >= 0 ==> c as int < 0x80
  {
  }

  /** How long an envelope is: two base64url texts and a dot. */
  lemma EnvelopeLength(json: Bytes, tag: Bytes)
    requires |tag| == 32
    ensures Utf8Len(Base64Url.Encode(json) + "." + Base64Url.Encode(tag)) == (4 * |json| + 2) / 3 + 44
  {
    Base64Url.EncodeShape(json);
    Base64Url.EncodeShape(tag);
    JoinedLength(Base64Url.Encode(json), Base64Url.Encode(tag));
  }

  lemma JoinedLength(text: string, tag: string)
    requires forall c :: c in text || c in tag ==> Base64Url.Digit(c) >= 0
    ensures Utf8Len(text + "." + tag) == |text| + 1 + |tag|
  {
    var envelope := text + "." + tag;
    forall c | c in envelope ensures c as int < 0x80 {
      assert c in text || c == '.' || c in tag;
      SymbolIsAscii(c);
    }
    AsciiBytes(envelope);
  }

  /** Sealing succeeds exactly for absolute paths, live contexts, agreeing policy revisions and payloads of at
      most 24543 bytes of JSON, and otherwise names the first of these that fails. */
  lemma SealExactly(lib: Library, codec: Codec, c: RequestContext, verb: string, path: string, now: U64)
    requires forall key, message :: |lib.hmac(key, message)| == 32
    ensures SealOutcome(Seal(lib, codec, c, verb, path, now), IsAbsolutePath(path), now < c.auth.expiresAt,
                        c.auth.policyRevision == c.authorization.policyRevision,
                        |lib.toJson(PayloadOf(codec, c, verb, path, now))| <= 24543)
  {
    var json := lib.toJson(PayloadOf(codec, c, verb, path, now));
    PathIsAbsolute(path);
    EnvelopeLength(json, Tag(lib, codec, Base64Url.Encode(json)));
    SealByCases(lib, codec, c, verb, path, now);
  }

  /** Success exactly when every condition holds, and otherwise the error of the first that does not. */
  predicate SealOutcome(r: Result<string, TrustError>, absolute: bool, live: bool, agrees: bool, fits: bool) {
    && (r.Ok? <==> absolute && live && agrees && fits)
    && (!absolute ==> r == Err(BindingMismatch))
    && (absolute && !live ==> r == Err(Expired))
    && (absolute && live && !agrees ==> r == Err(InvalidContext))
    && (absolute && live && agrees && !fits ==> r == Err(InvalidEnvelope))
  }

  lemma SealByCases(lib: Library, codec: Codec, c: RequestContext, verb: string, path: string, now: U64)
    ensures SealOutcome(Seal(lib, codec, c, verb, path, now), ValidPath(path), now < c.auth.expiresAt,
                        c.auth.policyRevision == c.authorization.policyRevision,
                        Utf8Len(EnvelopeFor(lib, codec, PayloadText(lib, codec, c, verb, path, now))) <= 32768)
  {
  }

  /** End to end: a live context that fits is sealed, and opened as it was by everyone who holds the key, for
      the same audience, method, path and request, from a second before the sealing to the end of the
      window. */
  lemma SealedIsOpened(lib: Library, sealer: Codec, opener: Codec, c: RequestContext, verb: string, path: string, t: U64, now: U64)
    requires forall key, message :: |lib.hmac(key, message)| == 32
    requires Faithful(lib) && Valid(c) && c.auth.policyRevision == c.authorization.policyRevision
    requires sealer.key == opener.key && sealer.audience == opener.audience
    requires IsAbsolutePath(path) && t < c.auth.expiresAt && |lib.toJson(PayloadOf(sealer, c, verb, path, t))| <= 24543
    requires t - 1 <= now <= t + opener.maxAge && now < c.auth.expiresAt
    ensures Seal(lib, sealer, c, verb, path, t).Ok?
    ensures Open(lib, opener, Seal(lib, sealer, c, verb, path, t).value, verb, path, c.auth.requestId, now) == Ok(c)
  {
    SealExactly(lib, sealer, c, verb, path, t);
    OpenOfSeal(lib, sealer, opener, c, verb, path, t, Seal(lib, sealer, c, verb, path, t).value, verb, path, c.auth.requestId, now);
  }

  /** What `open` refuses before it reads a payload. */
  lemma OpenRefuses(lib: Library, codec: Codec, envelope: string, verb: string, path: string, requestId: string, now: U64)
    ensures !IsAbsolutePath(path) ==> Open(lib, codec, envelope, verb, path, requestId, now) == Err(BindingMismatch)
    ensures IsAbsolutePath(path) && |Utf8(envelope)| > 32768 ==> Open(lib, codec, envelope, verb, path, requestId, now) == Err(InvalidEnvelope)
    ensures IsAbsolutePath(path) && (forall text :: envelope != EnvelopeFor(lib, codec, text) || '.' in text) ==>
              Open(lib, codec, envelope, verb, path, requestId, now) == Err(InvalidEnvelope)
  {
    PathIsAbsolute(path);
    if Authenticated(lib, codec, envelope).Some? {
      EnvelopeOfText(lib, codec, envelope, Authenticated(lib, codec, envelope).value);
    }
  }

  /** Whatever the payload says, only contexts that meet every constructor's invariant come out. */
  lemma OpenYieldsValidContext(lib: Library, codec: Codec, envelope: string, verb: string, path: string, requestId: string, now: U64)
    requires Open(lib, codec, envelope, verb, path, requestId, now).Ok?
    ensures var c := Open(lib, codec, envelope, verb, path, requestId, now).value;
            && Valid(c)
            && c.auth.policyRevision == c.authorization.policyRevision
            && c.auth.requestId == requestId
            && now < c.auth.expiresAt
  {
    RebuildIsValid(Decoded(lib, Authenticated(lib, codec, envelope).value).value);
  }

  lemma RebuildIsValid(p: Payload)
    requires Rebuild(p).Ok?
    ensures Valid(Rebuild(p).value)
    ensures Rebuild(p).value.auth.policyRevision == Rebuild(p).value.authorization.policyRevision
    ensures Rebuild(p).value.auth.requestId == p.requestId && Rebuild(p).value.auth.expiresAt == p.expiresAt
  {
    CheckAllSound(p.permissions);
    CheckAllSound(p.roleIds);
  }

  /** The payload describes the context, field by field; its lists may repeat and reorder elements. */
  ghost predicate Describes(p: Payload, c: RequestContext) {
    && c.auth.principal == Principal(p.userId, p.issuer, p.systemAdministrator)
    && c.auth.organizationId == p.organizationId && c.auth.sessionId == p.sessionId && c.auth.requestId == p.requestId
    && c.auth.assurance == p.assurance && c.auth.issuedAt == p.issuedAt && c.auth.expiresAt == p.expiresAt
    && c.auth.decisionId == p.decisionId
    && c.auth.policyRevision == p.policyRevision && c.authorization.policyRevision == p.policyRevision
    && c.authorization.consistencyToken == p.consistencyToken
    && (forall v :: v in c.authorization.permissions <==> v in p.permissions)
    && (forall v :: v in c.authorization.roleIds <==> v in p.roleIds)
  }

  lemma RebuildExactly(p: Payload, c: RequestContext)
    ensures Rebuild(p) == Ok(c) <==> Describes(p, c) && Valid(c)
    ensures Rebuild(p).Err? ==> Rebuild(p) == Err(InvalidContext)
  {
    CheckAllSound(p.permissions);
    CheckAllSound(p.roleIds);
    if Describes(p, c) && Valid(c) {
      assert Elements(p.permissions) == c.authorization.permissions && Elements(p.roleIds) == c.authorization.roleIds;
      RebuildFromLists(p, c);
    }
    if Rebuild(p) == Ok(c) {
      RebuildIsValid(p);
    }
  }

  /** What `open` makes of an authentic envelope: nothing it cannot read, then the binding, the window and the
      constructors decide, in this order. It yields exactly the valid context that the payload describes. */
  lemma OpenExactly(lib: Library, codec: Codec, text: string, envelope: string, verb: string, path: string,
                    requestId: string, now: U64, c: RequestContext)
    requires '.' !in text && envelope == EnvelopeFor(lib, codec, text)
    requires IsAbsolutePath(path) && |Utf8(envelope)| <= 32768
    ensures OpenOutcome(Open(lib, codec, envelope, verb, path, requestId, now), Decoded(lib, text),
                        codec, verb, path, requestId, now, c)
  {
    PathIsAbsolute(path);
    SealedTextAuthenticates(lib, codec, text);
    OpenReads(lib, codec, envelope, text, verb, path, requestId, now);
    if Decoded(lib, text).Some? {
      AcceptExactly(Decoded(lib, text).value, codec, verb, path, requestId, now, c);
    }
  }

  lemma OpenReads(lib: Library, codec: Codec, envelope: string, text: string, verb: string, path: string, requestId: string, now: U64)
    requires ValidPath(path) && Utf8Len(envelope) <= MAX_HEADER_BYTES && Authenticated(lib, codec, envelope) == Some(text)
    ensures Open(lib, codec, envelope, verb, path, requestId, now) ==
            match Decoded(lib, text)
            case None => Err(InvalidEnvelope)
            case Some(p) => Accept(p, codec, verb, path, requestId, now)
  {
  }

  lemma AcceptExactly(p: Payload, codec: Codec, verb: string, path: string, requestId: string, now: U64, c: RequestContext)
    ensures OpenOutcome(Accept(p, codec, verb, path, requestId, now), Some(p), codec, verb, path, requestId, now, c)
  {
    RebuildExactly(p, c);
  }

  ghost predicate OpenOutcome(r: Result<RequestContext, TrustError>, read: Option<Payload>, codec: Codec, verb: string, path: string,
                        requestId: string, now: U64, c: RequestContext) {
    match read
    case None => r == Err(InvalidEnvelope)
    case Some(p) =>
      if p.version != 1 || p.audience != codec.audience || p.verb != verb || p.path != path || p.requestId != requestId
      then r == Err(BindingMismatch)
      else if now + 1 < p.sealedAt || now > p.sealedAt + codec.maxAge || now >= p.expiresAt then r == Err(Expired)
      else (r == Ok(c) <==> Describes(p, c) && Valid(c)) && (r.Err? ==> r == Err(InvalidContext))
  }

  // ---------------------------------------------------------------- unforgeability over a run

  datatype Event =
    | Sealed(codec: Codec, context: RequestContext, verb: string, path: string, now: U64, envelope: string)
    | Opened(codec: Codec, envelope: string, verb: string, path: string, requestId: string, now: U64,
             result: Result<RequestContext, TrustError>)

  /** Every event is a call with its result. Envelopes given to `open` are arbitrary. */
  ghost predicate IsRun(lib: Library, run: seq<Event>) {
    forall i :: 0 <= i < |run| ==>
      match run[i]
      case Sealed(codec, c, verb, path, now, envelope) =>
        Valid(c) && Seal(lib, codec, c, verb, path, now) == Ok(envelope)
      case Opened(codec, envelope, verb, path, requestId, now, result) =>
        result == Open(lib, codec, envelope, verb, path, requestId, now)
  }

  /** The text signed by a seal event. */
  ghost function SignedText(lib: Library, e: Event): string
    requires e.Sealed?
  {
    PayloadText(lib, e.codec, e.context, e.verb, e.path, e.now)
  }

  /** An ideal MAC: whatever verifies under a key was signed earlier under that key. */
  ghost predicate Unforgeable(lib: Library, run: seq<Event>) {
    forall i :: 0 <= i < |run| && run[i].Opened? && Authenticated(lib, run[i].codec, run[i].envelope).Some? ==>
      exists j :: 0 <= j < i && run[j].Sealed? && run[j].codec.key == run[i].codec.key
                  && SignedText(lib, run[j]) == Authenticated(lib, run[i].codec, run[i].envelope).value
  }

  /** Because base64url decoding is strict, a text has one envelope that verifies. */
  lemma EnvelopeOfText(lib: Library, codec: Codec, envelope: string, text: string)
    requires Authenticated(lib, codec, envelope) == Some(text)
    ensures envelope == EnvelopeFor(lib, codec, text)
  {
    Base64Url.EncodeOfDecode(SplitAtOnlyDot(envelope).value.1);
  }

  /** With an ideal MAC, over any run, every context that `open` returns is the context of an
      earlier seal, from the very envelope that seal produced, for the same audience, method,
      path and request id, and still inside its window. */
  lemma OpenedWasSealed(lib: Library, run: seq<Event>, i: nat)
    requires Faithful(lib) && IsRun(lib, run) && Unforgeable(lib, run)
    requires i < |run| && run[i].Opened? && run[i].result.Ok?
    ensures exists j :: 0 <= j < i && run[j].Sealed?
                        && run[j].envelope == run[i].envelope
                        && run[j].context == run[i].result.value
                        && run[j].codec.audience == run[i].codec.audience
                        && run[j].verb == run[i].verb && run[j].path == run[i].path
                        && run[j].context.auth.requestId == run[i].requestId
                        && InWindow(run[i].codec, run[j].context, run[j].now, run[i].now)
  {
    var o := run[i];
    var text := AuthenticatedText(lib, o);
    var j :| 0 <= j < i && run[j].Sealed? && run[j].codec.key == o.codec.key && SignedText(lib, run[j]) == text;
    var e := run[j];
    EnvelopeOfText(lib, o.codec, o.envelope, text);
    SealProducesEnvelope(lib, e.codec, o.codec, e.context, e.verb, e.path, e.now, e.envelope);
    OpenOfSeal(lib, e.codec, o.codec, e.context, e.verb, e.path, e.now, e.envelope, o.verb, o.path, o.requestId, o.now);
  }

  lemma AuthenticatedText(lib: Library, o: Event) returns (text: string)
    requires o.Opened? && o.result.Ok?
    requires o.result == Open(lib, o.codec, o.envelope, o.verb, o.path, o.requestId, o.now)
    ensures Authenticated(lib, o.codec, o.envelope) == Some(text) && ValidPath(o.path)
  {
    text := Authenticated(lib, o.codec, o.envelope).value;
  }
}
