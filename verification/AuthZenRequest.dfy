/** Access evaluation requests of the bounded AuthZEN 1.0 profile and their JSON form. */
module AuthZenRequest {
  import opened Common
  import opened Text
  import opened Json
  import opened AuthZenAttributes

  datatype Subject =
    | Anonymous
    | Authenticated(
        subjectType: string,
        id: string,
        issuer: string,
        tenantId: Option<string>,
        scopes: seq<string>,
        attributes: seq<Attribute>)

  datatype Action = Action(name: string, attributes: seq<Attribute>)

  datatype Resource = Resource(resourceType: string, id: string, attributes: seq<Attribute>)

  datatype Consistency = MinimizeLatency | AtLeastAsFresh(token: string) | FullyConsistent

  datatype Context = Context(attributes: seq<Attribute>, consistency: Option<Consistency>, requestId: Option<string>)

  datatype AccessRequest = AccessRequest(subject: Subject, action: Action, resource: Resource, context: Option<Context>)

  // ---------------------------------------------------------------- what the constructors guarantee

  predicate ValidSubject(s: Subject) {
    s.Authenticated? ==>
      && ValidIdentifier(s.subjectType, MAX_ENTITY_TYPE_LEN)
      && ValidText(s.id, MAX_ENTITY_ID_LEN)
      && ValidText(s.issuer, MAX_ENTITY_ID_LEN)
      && ValidOptionalText(s.tenantId, MAX_ENTITY_ID_LEN)
      && ValidScopes(s.scopes)
      && ValidAttributes(s.attributes)
  }

  predicate ValidConsistency(c: Option<Consistency>) {
    c.Some? && c.value.AtLeastAsFresh? ==> ValidText(c.value.token, MAX_REVISION_LEN)
  }

  predicate ValidContext(c: Context) {
    ValidAttributes(c.attributes) && ValidConsistency(c.consistency) && ValidOptionalText(c.requestId, MAX_CORRELATION_ID_LEN)
  }

  predicate ValidRequest(r: AccessRequest) {
    && ValidSubject(r.subject)
    && ValidIdentifier(r.action.name, MAX_NAME_LEN) && ValidAttributes(r.action.attributes)
    && ValidIdentifier(r.resource.resourceType, MAX_ENTITY_TYPE_LEN) && ValidText(r.resource.id, MAX_ENTITY_ID_LEN)
    && ValidAttributes(r.resource.attributes)
    && (r.context.Some? ==> ValidContext(r.context.value))
  }

  /** An authenticated subject whose type reads like the anonymous one. */
  predicate PosesAsAnonymous(s: Subject) {
    s.Authenticated? && s.subjectType == "anonymous"
  }

  // ---------------------------------------------------------------- subjects

  function EncodeProfile(s: Subject): Json {
    match s
    case Anonymous => Obj(map[Known(StateKey) := Str("anonymous")])
    case Authenticated(_, _, issuer, tenantId, scopes, attributes) =>
      Obj(map[Known(StateKey) := Str("authenticated"), Known(IssuerKey) := Str(issuer)]
          + Optional(TenantIdKey, OptionalStr(tenantId))
          + Optional(ScopesKey, EncodeScopes(scopes))
          + Optional(AttributesKey, EncodeAttributes(attributes)))
  }

  function EncodeSubject(s: Subject): Json {
    var (kind, id) := match s case Anonymous => ("anonymous", "anonymous") case Authenticated(t, i, _, _, _, _) => (t, i);
    Obj(map[Known(TypeKey) := Str(kind), Known(IdKey) := Str(id),
            Known(PropertiesKey) := Obj(map[Known(ProfileKey) := EncodeProfile(s)])])
  }

  /** The fields of an authenticated profile. */
  datatype Profile = Profile(issuer: string, tenantId: Option<string>, scopes: seq<string>, attributes: seq<Attribute>)

  ghost function DecodeProfile(j: Json): Option<Profile> {
    match (DecodeText(Member(j, IssuerKey), MAX_ENTITY_ID_LEN), DecodeOptionalText(Member(j, TenantIdKey), MAX_ENTITY_ID_LEN),
           DecodeScopes(Member(j, ScopesKey)), DecodeAttributes(Member(j, AttributesKey)))
    case (Some(issuer), Some(tenantId), Some(scopes), Some(attributes)) =>
      Some(Profile(issuer, tenantId, scopes, attributes))
    case _ => None
  }

  ghost function DecodeSubjectParts(kind: string, id: string, profile: Json): Option<Subject> {
    var state := Member(profile, StateKey);
    if state == Some(Str("anonymous")) then
      if kind == "anonymous" && id == "anonymous" then Some(Anonymous) else None
    else if state == Some(Str("authenticated")) then
      match DecodeProfile(profile)
      case None => None
      case Some(p) =>
        if ValidIdentifier(kind, MAX_ENTITY_TYPE_LEN) && kind != "anonymous" && ValidText(id, MAX_ENTITY_ID_LEN)
        then Some(Authenticated(kind, id, p.issuer, p.tenantId, p.scopes, p.attributes)) else None
    else None
  }

  ghost function DecodeSubject(j: Json): Option<Subject> {
    match (Member(j, TypeKey), Member(j, IdKey), Member(j, PropertiesKey))
    case (Some(Str(kind)), Some(Str(id)), Some(properties)) =>
      (match Member(properties, ProfileKey)
       case Some(profile) => DecodeSubjectParts(kind, id, profile)
       case None => None)
    case _ => None
  }

  lemma ProfileMembers(s: Subject)
    requires s.Authenticated?
    ensures var j := EncodeProfile(s);
            && Member(j, StateKey) == Some(Str("authenticated")) && Member(j, IssuerKey) == Some(Str(s.issuer))
            && Member(j, TenantIdKey) == OptionalStr(s.tenantId)
            && Member(j, ScopesKey) == EncodeScopes(s.scopes)
            && Member(j, AttributesKey) == EncodeAttributes(s.attributes)
  {
  }

  lemma ProfileFromParts(j: Json, p: Profile)
    requires DecodeText(Member(j, IssuerKey), MAX_ENTITY_ID_LEN) == Some(p.issuer)
    requires DecodeOptionalText(Member(j, TenantIdKey), MAX_ENTITY_ID_LEN) == Some(p.tenantId)
    requires DecodeScopes(Member(j, ScopesKey)) == Some(p.scopes)
    requires DecodeAttributes(Member(j, AttributesKey)) == Some(p.attributes)
    ensures DecodeProfile(j) == Some(p)
  {
  }

  lemma ProfileRoundTrip(s: Subject)
    requires s.Authenticated? && ValidSubject(s)
    ensures DecodeProfile(EncodeProfile(s)) == Some(Profile(s.issuer, s.tenantId, s.scopes, s.attributes))
  {
    ProfileMembers(s);
    TextRoundTrip(s.issuer, MAX_ENTITY_ID_LEN);
    OptionalTextRoundTrip(s.tenantId, MAX_ENTITY_ID_LEN);
    ScopesRoundTrip(s.scopes);
    AttributesRoundTrip(s.attributes);
    ProfileFromParts(EncodeProfile(s), Profile(s.issuer, s.tenantId, s.scopes, s.attributes));
  }

  lemma StatesDiffer()
    ensures Str("anonymous") != Str("authenticated")
  {
    assert |"anonymous"| == 9 && |"authenticated"| == 13;
  }

  lemma SubjectMembers(s: Subject)
    ensures DecodeSubject(EncodeSubject(s)) ==
            match s
            case Anonymous => DecodeSubjectParts("anonymous", "anonymous", EncodeProfile(s))
            case Authenticated(kind, id, _, _, _, _) => DecodeSubjectParts(kind, id, EncodeProfile(s))
  {
    var j := EncodeSubject(s);
    assert Member(j, PropertiesKey) == Some(Obj(map[Known(ProfileKey) := EncodeProfile(s)]));
  }

  lemma AuthenticatedFromParts(kind: string, id: string, profile: Json, p: Profile)
    requires Member(profile, StateKey) == Some(Str("authenticated")) && DecodeProfile(profile) == Some(p)
    requires ValidIdentifier(kind, MAX_ENTITY_TYPE_LEN) && ValidText(id, MAX_ENTITY_ID_LEN)
    ensures DecodeSubjectParts(kind, id, profile) ==
            if kind == "anonymous" then None
            else Some(Authenticated(kind, id, p.issuer, p.tenantId, p.scopes, p.attributes))
  {
    StatesDiffer();
  }

  /** A subject survives its wire form exactly when it does not pose as anonymous. */
  lemma SubjectRoundTrip(s: Subject)
    requires ValidSubject(s)
    ensures DecodeSubject(EncodeSubject(s)) == if PosesAsAnonymous(s) then None else Some(s)
  {
    SubjectMembers(s);
    if s.Authenticated? {
      var p := Profile(s.issuer, s.tenantId, s.scopes, s.attributes);
      ProfileMembers(s);
      ProfileRoundTrip(s);
      AuthenticatedFromParts(s.subjectType, s.id, EncodeProfile(s), p);
    }
  }

  // ---------------------------------------------------------------- actions, resources, context

  /** `properties` with its closed attribute profile, of an action or a resource. */
  function EncodeProperties(attributes: seq<Attribute>): Json {
    Obj(map[Known(ProfileKey) := Obj(Optional(AttributesKey, EncodeAttributes(attributes)))])
  }

  function DecodeProperties(j: Option<Json>): Option<seq<Attribute>> {
    if j.None? then None else
      match Member(j.value, ProfileKey)
      case None => None
      case Some(profile) =>
        if !OnlyMembers(profile, {AttributesKey}) then None else DecodeAttributes(Member(profile, AttributesKey))
  }

  lemma PropertiesRoundTrip(attributes: seq<Attribute>)
    requires ValidAttributes(attributes)
    ensures DecodeProperties(Some(EncodeProperties(attributes))) == Some(attributes)
  {
    AttributesRoundTrip(attributes);
    var profile := Obj(Optional(AttributesKey, EncodeAttributes(attributes)));
    assert Member(profile, AttributesKey) == EncodeAttributes(attributes);
    assert OnlyMembers(profile, {AttributesKey});
  }

  function EncodeAction(a: Action): Json {
    Obj(map[Known(NameKey) := Str(a.name), Known(PropertiesKey) := EncodeProperties(a.attributes)])
  }

  function DecodeAction(j: Json): Option<Action> {
    match (DecodeIdentifier(Member(j, NameKey), MAX_NAME_LEN), DecodeProperties(Member(j, PropertiesKey)))
    case (Some(name), Some(attributes)) => Some(Action(name, attributes))
    case _ => None
  }

  function EncodeResource(r: Resource): Json {
    Obj(map[Known(TypeKey) := Str(r.resourceType), Known(IdKey) := Str(r.id),
            Known(PropertiesKey) := EncodeProperties(r.attributes)])
  }

  function DecodeResource(j: Json): Option<Resource> {
    match (DecodeIdentifier(Member(j, TypeKey), MAX_ENTITY_TYPE_LEN), DecodeText(Member(j, IdKey), MAX_ENTITY_ID_LEN),
           DecodeProperties(Member(j, PropertiesKey)))
    case (Some(kind), Some(id), Some(attributes)) => Some(Resource(kind, id, attributes))
    case _ => None
  }

  function EncodeConsistency(c: Consistency): Json {
    match c
    case MinimizeLatency => Obj(map[Known(ModeKey) := Str("minimize_latency")])
    case AtLeastAsFresh(token) => Obj(map[Known(ModeKey) := Str("at_least_as_fresh"), Known(TokenKey) := Str(token)])
    case FullyConsistent => Obj(map[Known(ModeKey) := Str("fully_consistent")])
  }

  /** An absent or `null` requirement is none. */
  function DecodeConsistency(j: Option<Json>): Option<Option<Consistency>> {
    if j.None? || j.value.Null? then Some(None) else
      match Member(j.value, ModeKey)
      case Some(Str(mode)) =>
        if mode == "minimize_latency" then Some(Some(MinimizeLatency))
        else if mode == "fully_consistent" then Some(Some(FullyConsistent))
        else if mode == "at_least_as_fresh" then
          match DecodeText(Member(j.value, TokenKey), MAX_REVISION_LEN)
          case Some(token) => Some(Some(AtLeastAsFresh(token)))
          case None => None
        else None
      case _ => None
  }

  function OptionalConsistency(c: Option<Consistency>): Option<Json> {
    match c case None => None case Some(value) => Some(EncodeConsistency(value))
  }

  lemma ConsistencyRoundTrip(c: Option<Consistency>)
    requires ValidConsistency(c)
    ensures DecodeConsistency(OptionalConsistency(c)) == Some(c)
  {
    assert "minimize_latency"[0] == 'm' && "fully_consistent"[0] == 'f' && "at_least_as_fresh"[0] == 'a';
  }

  function EncodeContextProfile(c: Context): Json {
    Obj(Optional(AttributesKey, EncodeAttributes(c.attributes))
        + Optional(ConsistencyKey, OptionalConsistency(c.consistency))
        + Optional(RequestIdKey, OptionalStr(c.requestId)))
  }

  function EncodeContext(c: Context): Json {
    Obj(map[Known(ProfileKey) := EncodeContextProfile(c)])
  }

  function DecodeContextProfile(profile: Json): Option<Context> {
    if !OnlyMembers(profile, {AttributesKey, ConsistencyKey, RequestIdKey}) then None else
      match (DecodeAttributes(Member(profile, AttributesKey)), DecodeConsistency(Member(profile, ConsistencyKey)),
             DecodeOptionalText(Member(profile, RequestIdKey), MAX_CORRELATION_ID_LEN))
      case (Some(attributes), Some(consistency), Some(requestId)) => Some(Context(attributes, consistency, requestId))
      case _ => None
  }

  /** An absent or `null` context is none. */
  function DecodeContext(j: Option<Json>): Option<Option<Context>> {
    if j.None? || j.value.Null? then Some(None) else
      match Member(j.value, ProfileKey)
      case None => None
      case Some(profile) =>
        match DecodeContextProfile(profile)
        case None => None
        case Some(context) => Some(Some(context))
  }

  function OptionalContext(c: Option<Context>): Option<Json> {
    match c case None => None case Some(value) => Some(EncodeContext(value))
  }

  lemma ContextProfileFromParts(profile: Json, c: Context)
    requires OnlyMembers(profile, {AttributesKey, ConsistencyKey, RequestIdKey})
    requires DecodeAttributes(Member(profile, AttributesKey)) == Some(c.attributes)
    requires DecodeConsistency(Member(profile, ConsistencyKey)) == Some(c.consistency)
    requires DecodeOptionalText(Member(profile, RequestIdKey), MAX_CORRELATION_ID_LEN) == Some(c.requestId)
    ensures DecodeContextProfile(profile) == Some(c)
  {
  }

  lemma ContextProfileRoundTrip(c: Context)
    requires ValidContext(c)
    ensures DecodeContextProfile(EncodeContextProfile(c)) == Some(c)
  {
    ContextProfileMembers(c);
    AttributesRoundTrip(c.attributes);
    ConsistencyRoundTrip(c.consistency);
    OptionalTextRoundTrip(c.requestId, MAX_CORRELATION_ID_LEN);
    ContextProfileFromParts(EncodeContextProfile(c), c);
  }

  lemma ContextProfileMembers(c: Context)
    ensures var j := EncodeContextProfile(c);
            && Member(j, AttributesKey) == EncodeAttributes(c.attributes)
            && Member(j, ConsistencyKey) == OptionalConsistency(c.consistency)
            && Member(j, RequestIdKey) == OptionalStr(c.requestId)
            && OnlyMembers(j, {AttributesKey, ConsistencyKey, RequestIdKey})
  {
  }

  // ---------------------------------------------------------------- requests

  function EncodeRequest(r: AccessRequest): Json {
    Obj(map[Known(SubjectKey) := EncodeSubject(r.subject), Known(ActionKey) := EncodeAction(r.action),
            Known(ResourceKey) := EncodeResource(r.resource)]
        + Optional(ContextKey, OptionalContext(r.context)))
  }

  ghost function DecodeRequest(j: Json): Option<AccessRequest> {
    match (Member(j, SubjectKey), Member(j, ActionKey), Member(j, ResourceKey))
    case (Some(s), Some(a), Some(o)) =>
      (match (DecodeSubject(s), DecodeAction(a), DecodeResource(o), DecodeContext(Member(j, ContextKey)))
       case (Some(subject), Some(action), Some(resource), Some(context)) =>
         Some(AccessRequest(subject, action, resource, context))
       case _ => None)
    case _ => None
  }

  lemma RequestMembers(r: AccessRequest)
    ensures var j := EncodeRequest(r);
            && Member(j, SubjectKey) == Some(EncodeSubject(r.subject)) && Member(j, ActionKey) == Some(EncodeAction(r.action))
            && Member(j, ResourceKey) == Some(EncodeResource(r.resource)) && Member(j, ContextKey) == OptionalContext(r.context)
  {
  }

  lemma ActionRoundTrip(a: Action)
    requires ValidIdentifier(a.name, MAX_NAME_LEN) && ValidAttributes(a.attributes)
    ensures DecodeAction(EncodeAction(a)) == Some(a)
  {
    PropertiesRoundTrip(a.attributes);
  }

  lemma ResourceRoundTrip(r: Resource)
    requires ValidIdentifier(r.resourceType, MAX_ENTITY_TYPE_LEN) && ValidText(r.id, MAX_ENTITY_ID_LEN) && ValidAttributes(r.attributes)
    ensures DecodeResource(EncodeResource(r)) == Some(r)
  {
    PropertiesRoundTrip(r.attributes);
  }

  lemma ContextRoundTrip(c: Option<Context>)
    requires c.Some? ==> ValidContext(c.value)
    ensures DecodeContext(OptionalContext(c)) == Some(c)
  {
    if c.Some? {
      ContextProfileRoundTrip(c.value);
    }
  }

  /** Every request the constructors can build survives its JSON form, except those whose authenticated
      subject has the type `anonymous`: they are written and then refused. */
  lemma RequestRoundTrip(r: AccessRequest)
    requires ValidRequest(r)
    ensures DecodeRequest(EncodeRequest(r)) == if PosesAsAnonymous(r.subject) then None else Some(r)
  {
    RequestMembers(r);
    SubjectRoundTrip(r.subject);
    ActionRoundTrip(r.action);
    ResourceRoundTrip(r.resource);
    ContextRoundTrip(r.context);
  }

  // ---------------------------------------------------------------- decoded requests

  lemma DecodedSubjectIsValid(j: Json)
    requires DecodeSubject(j).Some?
    ensures ValidSubject(DecodeSubject(j).value) && !PosesAsAnonymous(DecodeSubject(j).value)
  {
    var profile := Member(Member(j, PropertiesKey).value, ProfileKey).value;
    if DecodeProfile(profile).Some? {
      DecodedScopesAreValid(Member(profile, ScopesKey));
      DecodedAttributesAreValid(Member(profile, AttributesKey));
    }
  }

  lemma DecodedPropertiesAreValid(j: Option<Json>)
    requires DecodeProperties(j).Some?
    ensures ValidAttributes(DecodeProperties(j).value)
  {
    DecodedAttributesAreValid(Member(Member(j.value, ProfileKey).value, AttributesKey));
  }

  lemma DecodedContextIsValid(j: Option<Json>)
    requires DecodeContext(j).Some? && DecodeContext(j).value.Some?
    ensures ValidContext(DecodeContext(j).value.value)
  {
    DecodedAttributesAreValid(Member(Member(j.value, ProfileKey).value, AttributesKey));
  }

  /** Whatever document is accepted, the result meets every constructor's invariant and encodes to its
      canonical document: decoding that document gives the same request again. */
  lemma DecodingIsCanonicalizing(j: Json)
    requires DecodeRequest(j).Some?
    ensures var r := DecodeRequest(j).value;
            ValidRequest(r) && DecodeRequest(EncodeRequest(r)) == Some(r)
  {
    var r := DecodeRequest(j).value;
    DecodedSubjectIsValid(Member(j, SubjectKey).value);
    DecodedPropertiesAreValid(Member(Member(j, ActionKey).value, PropertiesKey));
    DecodedPropertiesAreValid(Member(Member(j, ResourceKey).value, PropertiesKey));
    if r.context.Some? {
      DecodedContextIsValid(Member(j, ContextKey));
    }
    RequestRoundTrip(r);
  }

  // ---------------------------------------------------------------- unknown members

  const PROFILE_SCHEMA: Schema :=
    Open(map[StateKey := Exact, IssuerKey := Exact, TenantIdKey := Exact, ScopesKey := Exact, AttributesKey := ATTRIBUTES_SCHEMA])
  const SUBJECT_PROPERTIES_SCHEMA: Schema := Open(map[ProfileKey := PROFILE_SCHEMA])
  const SUBJECT_SCHEMA: Schema := Open(map[TypeKey := Exact, IdKey := Exact, PropertiesKey := SUBJECT_PROPERTIES_SCHEMA])
  const ENTITY_PROFILE_SCHEMA: Schema := Closed(map[AttributesKey := ATTRIBUTES_SCHEMA])
  const PROPERTIES_SCHEMA: Schema := Open(map[ProfileKey := ENTITY_PROFILE_SCHEMA])
  const ACTION_SCHEMA: Schema := Open(map[NameKey := Exact, PropertiesKey := PROPERTIES_SCHEMA])
  const RESOURCE_SCHEMA: Schema := Open(map[TypeKey := Exact, IdKey := Exact, PropertiesKey := PROPERTIES_SCHEMA])
  const CONSISTENCY_SCHEMA: Schema := Open(map[ModeKey := Exact, TokenKey := Exact])
  const CONTEXT_PROFILE_SCHEMA: Schema :=
    Closed(map[AttributesKey := ATTRIBUTES_SCHEMA, ConsistencyKey := CONSISTENCY_SCHEMA, RequestIdKey := Exact])
  const CONTEXT_SCHEMA: Schema := Open(map[ProfileKey := CONTEXT_PROFILE_SCHEMA])
  /** The levels of a request that tolerate unknown members are the open ones. */
  const REQUEST_SCHEMA: Schema :=
    Open(map[SubjectKey := SUBJECT_SCHEMA, ActionKey := ACTION_SCHEMA, ResourceKey := RESOURCE_SCHEMA, ContextKey := CONTEXT_SCHEMA])

  lemma AttributesMemberAgrees(a: Option<Json>, b: Option<Json>)
    requires a.None? <==> b.None?
    requires a.Some? ==> SameKnown(ATTRIBUTES_SCHEMA, a.value, b.value)
    ensures DecodeAttributes(a) == DecodeAttributes(b)
  {
    if a.Some? {
      AttributesIgnoreUnknown(a.value, b.value);
    }
  }

  lemma ProfileIgnoresUnknown(j: Json, j': Json)
    requires SameKnown(PROFILE_SCHEMA, j, j')
    ensures Member(j, StateKey) == Member(j', StateKey) && DecodeProfile(j) == DecodeProfile(j')
  {
    var known := PROFILE_SCHEMA.known;
    OpenMember(known, j, j', StateKey);
    OpenMember(known, j, j', IssuerKey);
    OpenMember(known, j, j', TenantIdKey);
    OpenMember(known, j, j', ScopesKey);
    OpenMember(known, j, j', AttributesKey);
    AttributesMemberAgrees(Member(j, AttributesKey), Member(j', AttributesKey));
  }

  lemma PartsIgnoreUnknown(kind: string, id: string, profile: Json, profile': Json)
    requires SameKnown(PROFILE_SCHEMA, profile, profile')
    ensures DecodeSubjectParts(kind, id, profile) == DecodeSubjectParts(kind, id, profile')
  {
    ProfileIgnoresUnknown(profile, profile');
  }

  /** The documents agree on what a subject is read from. */
  ghost predicate SubjectsAgree(j: Json, j': Json) {
    && Member(j, TypeKey) == Member(j', TypeKey) && Member(j, IdKey) == Member(j', IdKey)
    && (Member(j, PropertiesKey).None? <==> Member(j', PropertiesKey).None?)
    && (Member(j, PropertiesKey).Some? ==>
          SameKnown(SUBJECT_PROPERTIES_SCHEMA, Member(j, PropertiesKey).value, Member(j', PropertiesKey).value))
  }

  lemma SubjectMembersAgree(j: Json, j': Json)
    requires SameKnown(SUBJECT_SCHEMA, j, j')
    ensures SubjectsAgree(j, j')
  {
    var known := SUBJECT_SCHEMA.known;
    OpenMember(known, j, j', TypeKey);
    OpenMember(known, j, j', IdKey);
    OpenMember(known, j, j', PropertiesKey);
  }

  lemma SubjectFromMembers(j: Json, j': Json)
    requires SubjectsAgree(j, j')
    ensures DecodeSubject(j) == DecodeSubject(j')
  {
    var p, p' := Member(j, PropertiesKey), Member(j', PropertiesKey);
    if p.Some? && Member(j, TypeKey).Some? && Member(j, TypeKey).value.Str? && Member(j, IdKey).Some? && Member(j, IdKey).value.Str? {
      OpenMember(SUBJECT_PROPERTIES_SCHEMA.known, p.value, p'.value, ProfileKey);
      if Member(p.value, ProfileKey).Some? {
        PartsIgnoreUnknown(Member(j, TypeKey).value.s, Member(j, IdKey).value.s,
                           Member(p.value, ProfileKey).value, Member(p'.value, ProfileKey).value);
      }
    }
  }

  lemma SubjectIgnoresUnknown(j: Json, j': Json)
    requires SameKnown(SUBJECT_SCHEMA, j, j')
    ensures DecodeSubject(j) == DecodeSubject(j')
  {
    SubjectMembersAgree(j, j');
    SubjectFromMembers(j, j');
  }

  lemma EntityProfileIgnoresUnknown(j: Json, j': Json)
    requires SameKnown(ENTITY_PROFILE_SCHEMA, j, j')
    ensures OnlyMembers(j, {AttributesKey}) == OnlyMembers(j', {AttributesKey})
    ensures DecodeAttributes(Member(j, AttributesKey)) == DecodeAttributes(Member(j', AttributesKey))
  {
    ClosedMember(ENTITY_PROFILE_SCHEMA.known, j, j', AttributesKey);
    AttributesMemberAgrees(Member(j, AttributesKey), Member(j', AttributesKey));
  }

  lemma PropertiesIgnoreUnknown(a: Option<Json>, b: Option<Json>)
    requires a.None? <==> b.None?
    requires a.Some? ==> SameKnown(PROPERTIES_SCHEMA, a.value, b.value)
    ensures DecodeProperties(a) == DecodeProperties(b)
  {
    if a.Some? {
      OpenMember(PROPERTIES_SCHEMA.known, a.value, b.value, ProfileKey);
      if Member(a.value, ProfileKey).Some? {
        EntityProfileIgnoresUnknown(Member(a.value, ProfileKey).value, Member(b.value, ProfileKey).value);
      }
    }
  }

  lemma ActionIgnoresUnknown(j: Json, j': Json)
    requires SameKnown(ACTION_SCHEMA, j, j')
    ensures DecodeAction(j) == DecodeAction(j')
  {
    OpenMember(ACTION_SCHEMA.known, j, j', NameKey);
    OpenMember(ACTION_SCHEMA.known, j, j', PropertiesKey);
    PropertiesIgnoreUnknown(Member(j, PropertiesKey), Member(j', PropertiesKey));
  }

  lemma ResourceIgnoresUnknown(j: Json, j': Json)
    requires SameKnown(RESOURCE_SCHEMA, j, j')
    ensures DecodeResource(j) == DecodeResource(j')
  {
    OpenMember(RESOURCE_SCHEMA.known, j, j', TypeKey);
    OpenMember(RESOURCE_SCHEMA.known, j, j', IdKey);
    OpenMember(RESOURCE_SCHEMA.known, j, j', PropertiesKey);
    PropertiesIgnoreUnknown(Member(j, PropertiesKey), Member(j', PropertiesKey));
  }

  lemma ConsistencyIgnoresUnknown(j: Json, j': Json)
    requires SameKnown(CONSISTENCY_SCHEMA, j, j')
    ensures DecodeConsistency(Some(j)) == DecodeConsistency(Some(j'))
  {
    OpenMember(CONSISTENCY_SCHEMA.known, j, j', ModeKey);
    OpenMember(CONSISTENCY_SCHEMA.known, j, j', TokenKey);
  }

  lemma ContextProfileIgnoresUnknown(j: Json, j': Json)
    requires SameKnown(CONTEXT_PROFILE_SCHEMA, j, j')
    ensures DecodeContextProfile(j) == DecodeContextProfile(j')
  {
    var known := CONTEXT_PROFILE_SCHEMA.known;
    ClosedMember(known, j, j', AttributesKey);
    ClosedMember(known, j, j', ConsistencyKey);
    ClosedMember(known, j, j', RequestIdKey);
    AttributesMemberAgrees(Member(j, AttributesKey), Member(j', AttributesKey));
    if Member(j, ConsistencyKey).Some? {
      ConsistencyIgnoresUnknown(Member(j, ConsistencyKey).value, Member(j', ConsistencyKey).value);
    }
  }

  lemma ContextIgnoresUnknown(a: Option<Json>, b: Option<Json>)
    requires a.None? <==> b.None?
    requires a.Some? ==> SameKnown(CONTEXT_SCHEMA, a.value, b.value)
    ensures DecodeContext(a) == DecodeContext(b)
  {
    if a.Some? {
      OpenMember(CONTEXT_SCHEMA.known, a.value, b.value, ProfileKey);
      if Member(a.value, ProfileKey).Some? {
        ContextProfileIgnoresUnknown(Member(a.value, ProfileKey).value, Member(b.value, ProfileKey).value);
      }
    }
  }

  /** The documents agree on what a request is read from. */
  ghost predicate RequestsAgree(j: Json, j': Json) {
    && (Member(j, SubjectKey).None? <==> Member(j', SubjectKey).None?)
    && (Member(j, SubjectKey).Some? ==> SameKnown(SUBJECT_SCHEMA, Member(j, SubjectKey).value, Member(j', SubjectKey).value))
    && (Member(j, ActionKey).None? <==> Member(j', ActionKey).None?)
    && (Member(j, ActionKey).Some? ==> SameKnown(ACTION_SCHEMA, Member(j, ActionKey).value, Member(j', ActionKey).value))
    && (Member(j, ResourceKey).None? <==> Member(j', ResourceKey).None?)
    && (Member(j, ResourceKey).Some? ==> SameKnown(RESOURCE_SCHEMA, Member(j, ResourceKey).value, Member(j', ResourceKey).value))
    && (Member(j, ContextKey).None? <==> Member(j', ContextKey).None?)
    && (Member(j, ContextKey).Some? ==> SameKnown(CONTEXT_SCHEMA, Member(j, ContextKey).value, Member(j', ContextKey).value))
  }

  lemma RequestMembersAgree(j: Json, j': Json)
    requires SameKnown(REQUEST_SCHEMA, j, j')
    ensures RequestsAgree(j, j')
  {
    var known := REQUEST_SCHEMA.known;
    OpenMember(known, j, j', SubjectKey);
    OpenMember(known, j, j', ActionKey);
    OpenMember(known, j, j', ResourceKey);
    OpenMember(known, j, j', ContextKey);
  }

  /** What the members of a request decode to. */
  ghost function DecodeParts(subject: Option<Subject>, action: Option<Action>, resource: Option<Resource>,
                             context: Option<Option<Context>>): Option<AccessRequest> {
    match (subject, action, resource, context)
    case (Some(s), Some(a), Some(r), Some(c)) => Some(AccessRequest(s, a, r, c))
    case _ => None
  }

  lemma RequestFromParts(j: Json)
    ensures Member(j, SubjectKey).None? || Member(j, ActionKey).None? || Member(j, ResourceKey).None? ==> DecodeRequest(j) == None
    ensures Member(j, SubjectKey).Some? && Member(j, ActionKey).Some? && Member(j, ResourceKey).Some? ==>
              DecodeRequest(j) == DecodeParts(DecodeSubject(Member(j, SubjectKey).value), DecodeAction(Member(j, ActionKey).value),
                                              DecodeResource(Member(j, ResourceKey).value), DecodeContext(Member(j, ContextKey)))
  {
  }

  /** Members unknown to an open level, at any depth, never change what is decoded or whether it is
      accepted (section 10.1.1 of the AuthZEN Authorization API 1.0). */
  lemma RequestIgnoresUnknown(j: Json, j': Json)
    requires SameKnown(REQUEST_SCHEMA, j, j')
    ensures DecodeRequest(j) == DecodeRequest(j')
  {
    RequestMembersAgree(j, j');
    RequestFromParts(j);
    RequestFromParts(j');
    if Member(j, SubjectKey).Some? && Member(j, ActionKey).Some? && Member(j, ResourceKey).Some? {
      SubjectIgnoresUnknown(Member(j, SubjectKey).value, Member(j', SubjectKey).value);
      ActionIgnoresUnknown(Member(j, ActionKey).value, Member(j', ActionKey).value);
      ResourceIgnoresUnknown(Member(j, ResourceKey).value, Member(j', ResourceKey).value);
      ContextIgnoresUnknown(Member(j, ContextKey), Member(j', ContextKey));
    }
  }

  // ---------------------------------------------------------------- requests that are lost

  lemma ShortIdentifier(s: string, limit: nat)
    requires 0 < |s| <= limit && forall c :: c in s ==> IsIdentifierChar(c)
    ensures ValidIdentifier(s, limit)
  {
    AsciiBytes(s);
  }

  lemma PosingSubjectIsValid(s: Subject)
    requires s.Authenticated? && ValidSubject(s)
    ensures ValidSubject(s.(subjectType := "anonymous"))
  {
    ShortIdentifier("anonymous", MAX_ENTITY_TYPE_LEN);
  }

  /** The exception is real: give any constructible request an authenticated subject of type `anonymous`,
      and it can still be constructed and written, but not read back. */
  lemma AnonymousTypeIsLost(r: AccessRequest)
    requires ValidRequest(r) && r.subject.Authenticated?
    ensures var posing := r.(subject := r.subject.(subjectType := "anonymous"));
            ValidRequest(posing) && DecodeRequest(EncodeRequest(posing)) == None
  {
    PosingSubjectIsValid(r.subject);
    RequestRoundTrip(r.(subject := r.subject.(subjectType := "anonymous")));
  }

  lemma LettersAreValid(s: string, limit: nat)
    requires |s| == 1 && 'a' <= s[0] <= 'z' && limit > 0
    ensures ValidText(s, limit) && ValidIdentifier(s, limit)
  {
    AsciiBytes(s);
  }

  /** Such requests exist. */
  lemma LostRequestExists() returns (r: AccessRequest)
    ensures ValidRequest(r) && DecodeRequest(EncodeRequest(r)) == None
  {
    LettersAreValid("a", MAX_NAME_LEN);
    LettersAreValid("a", MAX_ENTITY_ID_LEN);
    LettersAreValid("a", MAX_ENTITY_TYPE_LEN);
    r := AccessRequest(Authenticated("a", "a", "a", None, [], []), Action("a", []), Resource("a", "a", []), None);
    AnonymousTypeIsLost(r);
    r := r.(subject := r.subject.(subjectType := "anonymous"));
  }
}
