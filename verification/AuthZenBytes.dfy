/** Bounded AuthZEN documents as bytes: what is written within the size limit is read back. */
module AuthZenBytes {
  import opened Common
  import opened Json
  import opened AuthZenAttributes
  import opened AuthZenRequest
  import AuthZenDecision

  /** How deep the documents of the profile nest. */
  const NESTING: nat := 8

  /** The trees that are written: profile names only, 64-bit integers, no fractions, and at most so many levels
      of arrays and objects. */
  predicate Plain(j: Json, levels: nat)
    decreases levels, 0
  {
    match j
    case Null => true
    case Bool(_) => true
    case Integer(n) => IsI64(n)
    case Fraction(_) => false
    case Str(_) => true
    case Arr(items) => levels > 0 && forall i :: 0 <= i < |items| ==> Plain(items[i], levels - 1)
    case Obj(members) => levels > 0 && PlainMembers(members, levels - 1)
  }

  predicate PlainMembers(m: Members, levels: nat)
    decreases levels, 1
  {
    forall k :: k in m ==> k.Known? && Plain(m[k], levels)
  }

  predicate PlainOption(j: Option<Json>, levels: nat) {
    j.Some? ==> Plain(j.value, levels)
  }

  /** The byte-level JSON printer and parser. */
  datatype Codec = Codec(toBytes: Json -> Bytes, fromBytes: Bytes -> Option<Json>)

  /** Parsing undoes printing, on trees like those that are printed. */
  ghost predicate Faithful(codec: Codec) {
    forall j :: Plain(j, NESTING) ==> codec.fromBytes(codec.toBytes(j)) == Some(j)
  }

  // ---------------------------------------------------------------- what is written is plain

  lemma WithOptional(m: Members, k: Field, v: Option<Json>, levels: nat)
    requires PlainMembers(m, levels) && PlainOption(v, levels)
    ensures PlainMembers(m + Optional(k, v), levels)
  {
  }

  lemma PlainStrings(texts: seq<string>, levels: nat)
    requires levels >= 1
    ensures Plain(Arr(EncodeStrings(texts)), levels)
  {
  }

  lemma PlainValue(v: AttributeValue, levels: nat)
    requires ValidValue(v) && levels >= 2
    ensures Plain(EncodeValue(v), levels)
  {
    if v.ListValue? {
      PlainStrings(v.texts, levels - 1);
    }
  }

  lemma PlainAttribute(a: Attribute, levels: nat)
    requires ValidAttribute(a) && levels >= 3
    ensures Plain(EncodeAttribute(a), levels)
  {
    PlainValue(a.value, levels - 1);
    var members: Members := EncodeAttribute(a).members;
    assert Plain(Str(a.name), levels - 1) && Plain(Str(ProvenanceText(a.provenance)), levels - 1);
    assert PlainMembers(members, levels - 1);
  }

  lemma PlainAttributes(attributes: seq<Attribute>, levels: nat)
    requires ValidAttributes(attributes) && levels >= 4
    ensures PlainOption(EncodeAttributes(attributes), levels)
  {
    var items := EncodeItems(attributes);
    forall i | 0 <= i < |items| ensures Plain(items[i], levels - 1) {
      PlainAttribute(attributes[i], levels - 1);
    }
  }

  lemma PlainProperties(attributes: seq<Attribute>, levels: nat)
    requires ValidAttributes(attributes) && levels >= 6
    ensures Plain(EncodeProperties(attributes), levels)
  {
    PlainAttributes(attributes, levels - 2);
    WithOptional(map[], AttributesKey, EncodeAttributes(attributes), levels - 2);
    assert map[] + Optional(AttributesKey, EncodeAttributes(attributes)) == Optional(AttributesKey, EncodeAttributes(attributes));
    assert Plain(Obj(Optional(AttributesKey, EncodeAttributes(attributes))), levels - 1);
  }

  lemma PlainScopes(scopes: seq<string>, levels: nat)
    requires levels >= 1
    ensures PlainOption(EncodeScopes(scopes), levels)
  {
    PlainStrings(scopes, levels);
  }

  lemma PlainProfile(s: Subject, levels: nat)
    requires ValidSubject(s) && levels >= 5
    ensures Plain(EncodeProfile(s), levels)
  {
    if s.Authenticated? {
      var required: Members := map[Known(StateKey) := Str("authenticated"), Known(IssuerKey) := Str(s.issuer)];
      var tenant := required + Optional(TenantIdKey, OptionalStr(s.tenantId));
      var scoped := tenant + Optional(ScopesKey, EncodeScopes(s.scopes));
      WithOptional(required, TenantIdKey, OptionalStr(s.tenantId), levels - 1);
      PlainScopes(s.scopes, levels - 1);
      WithOptional(tenant, ScopesKey, EncodeScopes(s.scopes), levels - 1);
      PlainAttributes(s.attributes, levels - 1);
      WithOptional(scoped, AttributesKey, EncodeAttributes(s.attributes), levels - 1);
    }
  }

  lemma PlainSubject(s: Subject, levels: nat)
    requires ValidSubject(s) && levels >= 7
    ensures Plain(EncodeSubject(s), levels)
  {
    PlainProfile(s, levels - 2);
    match s
    case Anonymous => EntityIsPlain("anonymous", "anonymous", EncodeProfile(s), levels);
    case Authenticated(kind, id, _, _, _, _) => EntityIsPlain(kind, id, EncodeProfile(s), levels);
  }

  lemma EntityIsPlain(kind: string, id: string, profile: Json, levels: nat)
    requires levels >= 2 && Plain(profile, levels - 2)
    ensures Plain(Obj(map[Known(TypeKey) := Str(kind), Known(IdKey) := Str(id),
                          Known(PropertiesKey) := Obj(map[Known(ProfileKey) := profile])]), levels)
  {
    var properties: Members := map[Known(ProfileKey) := profile];
    assert PlainMembers(properties, levels - 2);
    assert Plain(Obj(properties), levels - 1) && Plain(Str(kind), levels - 1) && Plain(Str(id), levels - 1);
  }

  lemma PlainConsistency(c: Option<Consistency>, levels: nat)
    requires levels >= 1
    ensures PlainOption(OptionalConsistency(c), levels)
  {
  }

  lemma PlainContext(c: Option<Context>, levels: nat)
    requires (c.Some? ==> ValidContext(c.value)) && levels >= 6
    ensures PlainOption(OptionalContext(c), levels)
  {
    if c.Some? {
      var attributes := Optional(AttributesKey, EncodeAttributes(c.value.attributes));
      var consistent := attributes + Optional(ConsistencyKey, OptionalConsistency(c.value.consistency));
      PlainAttributes(c.value.attributes, levels - 2);
      assert PlainMembers(attributes, levels - 2);
      PlainConsistency(c.value.consistency, levels - 2);
      WithOptional(attributes, ConsistencyKey, OptionalConsistency(c.value.consistency), levels - 2);
      WithOptional(consistent, RequestIdKey, OptionalStr(c.value.requestId), levels - 2);
      assert Plain(EncodeContextProfile(c.value), levels - 1);
    }
  }

  lemma PlainAction(a: Action, levels: nat)
    requires ValidAttributes(a.attributes) && levels >= 7
    ensures Plain(EncodeAction(a), levels)
  {
    PlainProperties(a.attributes, levels - 1);
  }

  lemma PlainResource(r: Resource, levels: nat)
    requires ValidAttributes(r.attributes) && levels >= 7
    ensures Plain(EncodeResource(r), levels)
  {
    PlainProperties(r.attributes, levels - 1);
    assert Plain(Str(r.resourceType), levels - 1) && Plain(Str(r.id), levels - 1);
    assert PlainMembers(EncodeResource(r).members, levels - 1);
  }

  function RequestTree(subject: Json, action: Json, resource: Json, context: Option<Json>): Json {
    Obj(map[Known(SubjectKey) := subject, Known(ActionKey) := action, Known(ResourceKey) := resource]
        + Optional(ContextKey, context))
  }

  lemma TreeIsPlain(subject: Json, action: Json, resource: Json, context: Option<Json>, levels: nat)
    requires levels > 0 && Plain(subject, levels - 1) && Plain(action, levels - 1) && Plain(resource, levels - 1)
    requires PlainOption(context, levels - 1)
    ensures Plain(RequestTree(subject, action, resource, context), levels)
  {
    var required: Members := map[Known(SubjectKey) := subject, Known(ActionKey) := action, Known(ResourceKey) := resource];
    assert PlainMembers(required, levels - 1);
    WithOptional(required, ContextKey, context, levels - 1);
  }

  // The parts of a request, one lemma for each.

  lemma WithContext(subject: Json, action: Json, resource: Json, c: Option<Context>, levels: nat)
    requires levels >= NESTING && (c.Some? ==> ValidContext(c.value))
    requires Plain(subject, levels - 1) && Plain(action, levels - 1) && Plain(resource, levels - 1)
    ensures Plain(RequestTree(subject, action, resource, OptionalContext(c)), levels)
  {
    PlainContext(c, levels - 1);
    TreeIsPlain(subject, action, resource, OptionalContext(c), levels);
  }

  lemma WithResource(subject: Json, action: Json, r: Resource, c: Option<Context>, levels: nat)
    requires levels >= NESTING && ValidAttributes(r.attributes) && (c.Some? ==> ValidContext(c.value))
    requires Plain(subject, levels - 1) && Plain(action, levels - 1)
    ensures Plain(RequestTree(subject, action, EncodeResource(r), OptionalContext(c)), levels)
  {
    PlainResource(r, levels - 1);
    WithContext(subject, action, EncodeResource(r), c, levels);
  }

  lemma WithAction(subject: Json, a: Action, r: Resource, c: Option<Context>, levels: nat)
    requires levels >= NESTING && ValidAttributes(a.attributes) && ValidAttributes(r.attributes)
    requires (c.Some? ==> ValidContext(c.value)) && Plain(subject, levels - 1)
    ensures Plain(RequestTree(subject, EncodeAction(a), EncodeResource(r), OptionalContext(c)), levels)
  {
    PlainAction(a, levels - 1);
    WithResource(subject, EncodeAction(a), r, c, levels);
  }

  /** Every request is written as a plain tree. */
  lemma RequestIsPlain(r: AccessRequest, levels: nat)
    requires ValidRequest(r) && levels >= NESTING
    ensures Plain(EncodeRequest(r), levels)
  {
    PlainSubject(r.subject, levels - 1);
    WithAction(EncodeSubject(r.subject), r.action, r.resource, r.context, levels);
  }

  lemma PlainMetadata(m: AuthZenDecision.Metadata, levels: nat)
    requires levels >= 1
    ensures Plain(AuthZenDecision.EncodeMetadata(m), levels)
  {
    var members := AuthZenDecision.EncodeMetadata(m).members;
    forall k | k in members ensures k.Known? && Plain(members[k], levels - 1) {
      assert members[k].Str?;
    }
  }

  /** Every decision is written as a plain tree. */
  lemma DecisionIsPlain(d: AuthZenDecision.Decision, levels: nat)
    requires levels >= 3
    ensures Plain(AuthZenDecision.EncodeDecision(d), levels)
  {
    PlainMetadata(d.metadata, levels - 2);
    var context := if d.metadata == AuthZenDecision.NO_METADATA then None
                   else Some(Obj(map[Known(ProfileKey) := AuthZenDecision.EncodeMetadata(d.metadata)]));
    assert PlainOption(context, levels - 1);
    WithOptional(map[Known(DecisionKey) := Bool(d.allowed)], ContextKey, context, levels - 1);
  }

  // ---------------------------------------------------------------- requests as bytes

  /** `AccessRequestV1::to_json_vec`. */
  function RequestToBytes(codec: Codec, r: AccessRequest): Result<Bytes, ContractError> {
    var bytes := codec.toBytes(EncodeRequest(r));
    if |bytes| > MAX_DOCUMENT_BYTES then Err(DocumentTooLarge) else Ok(bytes)
  }

  /** `AccessRequestV1::from_json_slice`: the size is checked before anything is parsed. */
  ghost function RequestFromBytes(codec: Codec, bytes: Bytes): Result<AccessRequest, ContractError> {
    if |bytes| > MAX_DOCUMENT_BYTES then Err(DocumentTooLarge) else
      match codec.fromBytes(bytes)
      case None => Err(InvalidJson)
      case Some(j) =>
        match DecodeRequest(j)
        case None => Err(InvalidJson)
        case Some(r) => Ok(r)
  }

  /** A request of at most 64 KiB is written, and read back, or refused as invalid JSON exactly when the
      subject poses as anonymous. A larger one is not written. */
  lemma RequestBytesRoundTrip(codec: Codec, r: AccessRequest)
    requires Faithful(codec) && ValidRequest(r)
    ensures |codec.toBytes(EncodeRequest(r))| > 65536 ==> RequestToBytes(codec, r) == Err(DocumentTooLarge)
    ensures |codec.toBytes(EncodeRequest(r))| <= 65536 ==>
              && RequestToBytes(codec, r).Ok?
              && RequestFromBytes(codec, RequestToBytes(codec, r).value) ==
                 if PosesAsAnonymous(r.subject) then Err(InvalidJson) else Ok(r)
  {
    RequestIsPlain(r, NESTING);
    RequestRoundTrip(r);
  }

  // ---------------------------------------------------------------- decisions as bytes

  /** `DecisionResponseV1::to_json_vec`. */
  function DecisionToBytes(codec: Codec, d: AuthZenDecision.Decision): Result<Bytes, ContractError> {
    var bytes := codec.toBytes(AuthZenDecision.EncodeDecision(d));
    if |bytes| > MAX_DOCUMENT_BYTES then Err(DocumentTooLarge) else Ok(bytes)
  }

  /** `DecisionResponseV1::from_json_slice`. */
  function DecisionFromBytes(codec: Codec, bytes: Bytes): Result<AuthZenDecision.Decision, ContractError> {
    if |bytes| > MAX_DOCUMENT_BYTES then Err(DocumentTooLarge) else
      match codec.fromBytes(bytes)
      case None => Err(InvalidJson)
      case Some(j) => AuthZenDecision.DecodeDecision(j)
  }

  /** Every decision with valid metadata of at most 64 KiB is written and read back; a larger one is not
      written. */
  lemma DecisionBytesRoundTrip(codec: Codec, d: AuthZenDecision.Decision)
    requires Faithful(codec) && AuthZenDecision.ValidMetadata(d.metadata)
    ensures |codec.toBytes(AuthZenDecision.EncodeDecision(d))| > 65536 ==> DecisionToBytes(codec, d) == Err(DocumentTooLarge)
    ensures |codec.toBytes(AuthZenDecision.EncodeDecision(d))| <= 65536 ==>
              DecisionToBytes(codec, d).Ok? && DecisionFromBytes(codec, DecisionToBytes(codec, d).value) == Ok(d)
  {
    DecisionIsPlain(d, NESTING);
    AuthZenDecision.DecisionRoundTrip(d);
  }

  /** An oversized document is refused unread, whatever it says; a text that is no document is invalid JSON. */
  lemma OversizedIsRefused(codec: Codec, bytes: Bytes)
    ensures |bytes| > 65536 ==>
              RequestFromBytes(codec, bytes) == Err(DocumentTooLarge) && DecisionFromBytes(codec, bytes) == Err(DocumentTooLarge)
    ensures |bytes| <= 65536 && codec.fromBytes(bytes) == None ==>
              RequestFromBytes(codec, bytes) == Err(InvalidJson) && DecisionFromBytes(codec, bytes) == Err(InvalidJson)
  {
  }
}
