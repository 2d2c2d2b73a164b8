/** What AuthZEN documents say, stated on the trees themselves, and that the decoders read exactly that. */
module AuthZenMeaning {
  import opened Common
  import opened Text
  import opened Json
  import opened AuthZenAttributes
  import opened AuthZenRequest
  import AuthZenDecision

  // ---------------------------------------------------------------- texts

  /** An absent or `null` member says nothing. */
  predicate OptionalSays(j: Option<Json>, s: Option<string>) {
    match s
    case None => j == None || j == Some(Null)
    case Some(text) => j == Some(Str(text))
  }

  lemma OptionalTextExactly(j: Option<Json>, limit: nat, s: Option<string>)
    ensures DecodeOptionalText(j, limit) == Some(s) <==> OptionalSays(j, s) && ValidOptionalText(s, limit)
  {
  }

  lemma OptionalIdentifierExactly(j: Option<Json>, limit: nat, s: Option<string>)
    ensures DecodeOptionalIdentifier(j, limit) == Some(s) <==> OptionalSays(j, s) && ValidOptionalIdentifier(s, limit)
  {
  }

  predicate StringsSay(items: seq<Json>, texts: seq<string>) {
    |items| == |texts| && forall i :: 0 <= i < |items| ==> items[i] == Str(texts[i])
  }

  lemma {:induction false} StringsExactly(items: seq<Json>, texts: seq<string>)
    ensures DecodeStrings(items) == Some(texts) <==> StringsSay(items, texts)
  {
    if items != [] {
      var n := |items| - 1;
      if StringsSay(items, texts) {
        StringsExactly(items[..n], texts[..n]);
        assert texts == texts[..n] + [texts[n]];
      }
      if DecodeStrings(items) == Some(texts) {
        var rest := DecodeStrings(items[..n]).value;
        StringsExactly(items[..n], rest);
        assert forall i :: 0 <= i < n ==> items[i] == items[..n][i];
      }
    }
  }

  // ---------------------------------------------------------------- scopes

  /** At most 32 identifiers, whatever their order and repetition, say the sorted list of them. */
  predicate ScopesSay(j: Option<Json>, scopes: seq<string>) {
    if j.None? then scopes == [] else
      && j.value.Arr? && |j.value.items| <= 32
      && (forall item :: item in j.value.items ==> item.Str? && ValidIdentifier(item.s, MAX_NAME_LEN) && item.s in scopes)
      && StrictlySorted(scopes) && (forall s :: s in scopes ==> Str(s) in j.value.items)
  }

  lemma TextsSayScopes(items: seq<Json>, texts: seq<string>, scopes: seq<string>)
    requires StringsSay(items, texts)
    requires forall s :: s in texts ==> ValidIdentifier(s, MAX_NAME_LEN)
    requires |texts| <= 32
    ensures scopes == Canonical(texts) <==> ScopesSay(Some(Arr(items)), scopes)
  {
    forall s ensures s in texts <==> Str(s) in items {
      if s in texts {
        var i :| 0 <= i < |texts| && texts[i] == s;
        assert items[i] == Str(s);
      }
      if Str(s) in items {
        var i :| 0 <= i < |items| && items[i] == Str(s);
        assert texts[i] == s;
      }
    }
    forall item | item in items ensures item.Str? && item.s in texts {
      var i :| 0 <= i < |items| && items[i] == item;
      assert item == Str(texts[i]);
    }
    if ScopesSay(Some(Arr(items)), scopes) {
      forall s ensures s in Elements(scopes) <==> s in Elements(texts) {
        if s in texts {
          assert Str(s) in items;
        }
      }
      assert Elements(scopes) == Elements(texts);
      StrictlySortedUnique(scopes, Canonical(texts));
    }
    forall s ensures s in Canonical(texts) <==> s in texts {
      assert s in Elements(Canonical(texts)) <==> s in Elements(texts);
    }
  }

  lemma ItemsAreTexts(items: seq<Json>) returns (texts: seq<string>)
    requires forall item :: item in items ==> item.Str?
    ensures StringsSay(items, texts)
  {
    texts := seq(|items|, i requires 0 <= i < |items| => if items[i].Str? then items[i].s else []);
    forall i | 0 <= i < |items| ensures items[i] == Str(texts[i]) {
      assert items[i] in items;
    }
  }

  lemma ScopesExactly(j: Option<Json>, scopes: seq<string>)
    ensures DecodeScopes(j) == Some(scopes) <==> ScopesSay(j, scopes)
  {
    if j.Some? && j.value.Arr? {
      var items := j.value.items;
      if DecodeScopes(j) == Some(scopes) {
        var texts := DecodeStrings(items).value;
        StringsExactly(items, texts);
        TextsSayScopes(items, texts, scopes);
      }
      if ScopesSay(j, scopes) {
        var texts := ItemsAreTexts(items);
        StringsExactly(items, texts);
        forall s | s in texts ensures ValidIdentifier(s, MAX_NAME_LEN) {
          var i :| 0 <= i < |texts| && texts[i] == s;
          assert items[i] in items;
        }
        TextsSayScopes(items, texts, scopes);
      }
    }
  }

  // ---------------------------------------------------------------- attributes

  function TagOf(v: AttributeValue): string {
    match v
    case StringValue(_) => "string"
    case IntegerValue(_) => "integer"
    case BooleanValue(_) => "boolean"
    case ListValue(_) => "string_list"
  }

  predicate ContentSays(content: Json, v: AttributeValue) {
    match v
    case StringValue(text) => content == Str(text)
    case IntegerValue(n) => content == Integer(n)
    case BooleanValue(b) => content == Bool(b)
    case ListValue(texts) => content.Arr? && StringsSay(content.items, texts)
  }

  predicate ValueSays(j: Option<Json>, v: AttributeValue) {
    && j.Some? && Member(j.value, TypeKey) == Some(Str(TagOf(v)))
    && Member(j.value, ValueKey).Some? && ContentSays(Member(j.value, ValueKey).value, v)
  }

  lemma ContentExactly(content: Json, v: AttributeValue)
    ensures DecodeContent(TagOf(v), content) == Some(v) <==> ContentSays(content, v) && ValidValue(v)
  {
    TagsDiffer();
    if v.ListValue? && content.Arr? {
      StringsExactly(content.items, v.texts);
    }
  }

  lemma DecodedTag(tag: string, content: Json)
    requires DecodeContent(tag, content).Some?
    ensures tag == TagOf(DecodeContent(tag, content).value)
  {
  }

  lemma ValueExactly(j: Option<Json>, v: AttributeValue)
    ensures DecodeValue(j) == Some(v) <==> ValueSays(j, v) && ValidValue(v)
  {
    if j.Some? && Member(j.value, TypeKey).Some? && Member(j.value, TypeKey).value.Str? && Member(j.value, ValueKey).Some? {
      var tag, content := Member(j.value, TypeKey).value.s, Member(j.value, ValueKey).value;
      ContentExactly(content, v);
      if DecodeContent(tag, content) == Some(v) {
        DecodedTag(tag, content);
      }
    }
  }

  predicate AttributeSays(j: Json, a: Attribute) {
    && OnlyMembers(j, {NameKey, ValueKey, ProvenanceKey})
    && Member(j, NameKey) == Some(Str(a.name)) && ValueSays(Member(j, ValueKey), a.value)
    && Member(j, ProvenanceKey) == Some(Str(ProvenanceText(a.provenance)))
  }

  lemma ProvenanceExactly(j: Option<Json>, p: Provenance)
    ensures DecodeProvenance(j) == Some(p) <==> j == Some(Str(ProvenanceText(p)))
  {
    ProvenanceRoundTrip(p);
  }

  lemma AttributeExactly(j: Json, a: Attribute)
    ensures DecodeAttribute(j) == Some(a) <==> AttributeSays(j, a) && ValidAttribute(a)
  {
    ValueExactly(Member(j, ValueKey), a.value);
    ProvenanceExactly(Member(j, ProvenanceKey), a.provenance);
  }

  /** An absent list says that there are no attributes; otherwise each item says one, in order. */
  predicate AttributesSay(j: Option<Json>, attributes: seq<Attribute>) {
    if j.None? then attributes == [] else
      && j.value.Arr? && |j.value.items| == |attributes|
      && forall i :: 0 <= i < |attributes| ==> AttributeSays(j.value.items[i], attributes[i])
  }

  lemma AttributesExactly(j: Option<Json>, attributes: seq<Attribute>)
    ensures DecodeAttributes(j) == Some(attributes) <==> AttributesSay(j, attributes) && ValidAttributes(attributes)
  {
    if j.Some? && j.value.Arr? && |j.value.items| == |attributes| {
      var items, decode := j.value.items, DecodeAttribute;
      forall i | 0 <= i < |items|
        ensures decode(items[i]) == Some(attributes[i]) <==> AttributeSays(items[i], attributes[i]) && ValidAttribute(attributes[i])
      {
        AttributeExactly(items[i], attributes[i]);
      }
      DecodeAllIsPointwise(items, decode);
      if forall i :: 0 <= i < |items| ==> decode(items[i]) == Some(attributes[i]) {
        DecodeAllGives(items, decode, attributes);
      }
    }
  }

  // ---------------------------------------------------------------- requests

  predicate SubjectSays(j: Json, s: Subject) {
    && Member(j, PropertiesKey).Some? && Member(Member(j, PropertiesKey).value, ProfileKey).Some?
    && var profile := Member(Member(j, PropertiesKey).value, ProfileKey).value;
       match s
       case Anonymous =>
         && Member(j, TypeKey) == Some(Str("anonymous")) && Member(j, IdKey) == Some(Str("anonymous"))
         && Member(profile, StateKey) == Some(Str("anonymous"))
       case Authenticated(kind, id, issuer, tenantId, scopes, attributes) =>
         && Member(j, TypeKey) == Some(Str(kind)) && Member(j, IdKey) == Some(Str(id))
         && Member(profile, StateKey) == Some(Str("authenticated"))
         && Member(profile, IssuerKey) == Some(Str(issuer)) && OptionalSays(Member(profile, TenantIdKey), tenantId)
         && ScopesSay(Member(profile, ScopesKey), scopes) && AttributesSay(Member(profile, AttributesKey), attributes)
  }

  predicate ProfileSays(j: Json, p: Profile) {
    && Member(j, IssuerKey) == Some(Str(p.issuer)) && OptionalSays(Member(j, TenantIdKey), p.tenantId)
    && ScopesSay(Member(j, ScopesKey), p.scopes) && AttributesSay(Member(j, AttributesKey), p.attributes)
  }

  predicate ValidProfile(p: Profile) {
    && ValidText(p.issuer, MAX_ENTITY_ID_LEN) && ValidOptionalText(p.tenantId, MAX_ENTITY_ID_LEN)
    && ValidScopes(p.scopes) && ValidAttributes(p.attributes)
  }

  lemma ProfileExactly(j: Json, p: Profile)
    ensures DecodeProfile(j) == Some(p) <==> ProfileSays(j, p) && ValidProfile(p)
  {
    OptionalTextExactly(Member(j, TenantIdKey), MAX_ENTITY_ID_LEN, p.tenantId);
    ScopesExactly(Member(j, ScopesKey), p.scopes);
    AttributesExactly(Member(j, AttributesKey), p.attributes);
    if DecodeScopes(Member(j, ScopesKey)) == Some(p.scopes) {
      DecodedScopesAreValid(Member(j, ScopesKey));
    }
  }

  /** A document is read as a subject exactly when it says that subject, a valid one whose type is not
      `anonymous` unless it is the anonymous one. */
  lemma SubjectExactly(j: Json, s: Subject)
    ensures DecodeSubject(j) == Some(s) <==> SubjectSays(j, s) && ValidSubject(s) && !PosesAsAnonymous(s)
  {
    if Member(j, PropertiesKey).Some? && Member(Member(j, PropertiesKey).value, ProfileKey).Some? && s.Authenticated? {
      var profile := Member(Member(j, PropertiesKey).value, ProfileKey).value;
      ProfileExactly(profile, Profile(s.issuer, s.tenantId, s.scopes, s.attributes));
    }
    StatesDiffer();
  }

  predicate PropertiesSay(j: Option<Json>, attributes: seq<Attribute>) {
    && j.Some? && Member(j.value, ProfileKey).Some?
    && OnlyMembers(Member(j.value, ProfileKey).value, {AttributesKey})
    && AttributesSay(Member(Member(j.value, ProfileKey).value, AttributesKey), attributes)
  }

  lemma PropertiesExactly(j: Option<Json>, attributes: seq<Attribute>)
    ensures DecodeProperties(j) == Some(attributes) <==> PropertiesSay(j, attributes) && ValidAttributes(attributes)
  {
    if j.Some? && Member(j.value, ProfileKey).Some? {
      AttributesExactly(Member(Member(j.value, ProfileKey).value, AttributesKey), attributes);
    }
  }

  predicate ActionSays(j: Json, a: Action) {
    Member(j, NameKey) == Some(Str(a.name)) && PropertiesSay(Member(j, PropertiesKey), a.attributes)
  }

  predicate ResourceSays(j: Json, r: Resource) {
    && Member(j, TypeKey) == Some(Str(r.resourceType)) && Member(j, IdKey) == Some(Str(r.id))
    && PropertiesSay(Member(j, PropertiesKey), r.attributes)
  }

  lemma ActionExactly(j: Json, a: Action)
    ensures DecodeAction(j) == Some(a) <==>
            ActionSays(j, a) && ValidIdentifier(a.name, MAX_NAME_LEN) && ValidAttributes(a.attributes)
  {
    PropertiesExactly(Member(j, PropertiesKey), a.attributes);
  }

  lemma ResourceExactly(j: Json, r: Resource)
    ensures DecodeResource(j) == Some(r) <==>
            && ResourceSays(j, r) && ValidIdentifier(r.resourceType, MAX_ENTITY_TYPE_LEN)
            && ValidText(r.id, MAX_ENTITY_ID_LEN) && ValidAttributes(r.attributes)
  {
    PropertiesExactly(Member(j, PropertiesKey), r.attributes);
  }

  function ModeOf(c: Consistency): string {
    match c
    case MinimizeLatency => "minimize_latency"
    case AtLeastAsFresh(_) => "at_least_as_fresh"
    case FullyConsistent => "fully_consistent"
  }

  predicate ConsistencySays(j: Option<Json>, c: Option<Consistency>) {
    match c
    case None => j == None || j == Some(Null)
    case Some(mode) =>
      && j.Some? && Member(j.value, ModeKey) == Some(Str(ModeOf(mode)))
      && (mode.AtLeastAsFresh? ==> Member(j.value, TokenKey) == Some(Str(mode.token)))
  }

  lemma ConsistencyExactly(j: Option<Json>, c: Option<Consistency>)
    ensures DecodeConsistency(j) == Some(c) <==> ConsistencySays(j, c) && ValidConsistency(c)
  {
    assert "minimize_latency"[0] == 'm' && "fully_consistent"[0] == 'f' && "at_least_as_fresh"[0] == 'a';
  }

  predicate ContextSays(j: Option<Json>, c: Option<Context>) {
    match c
    case None => j == None || j == Some(Null)
    case Some(context) =>
      && j.Some? && Member(j.value, ProfileKey).Some?
      && ContextProfileSays(Member(j.value, ProfileKey).value, context)
  }

  predicate ContextProfileSays(profile: Json, c: Context) {
    && OnlyMembers(profile, {AttributesKey, ConsistencyKey, RequestIdKey})
    && AttributesSay(Member(profile, AttributesKey), c.attributes)
    && ConsistencySays(Member(profile, ConsistencyKey), c.consistency)
    && OptionalSays(Member(profile, RequestIdKey), c.requestId)
  }

  lemma ContextExactly(j: Option<Json>, c: Option<Context>)
    ensures DecodeContext(j) == Some(c) <==> ContextSays(j, c) && (c.Some? ==> ValidContext(c.value))
  {
    if c.Some? && j.Some? && Member(j.value, ProfileKey).Some? {
      ContextProfileExactly(Member(j.value, ProfileKey).value, c.value);
    }
  }

  lemma ContextProfileExactly(profile: Json, c: Context)
    ensures DecodeContextProfile(profile) == Some(c) <==> ContextProfileSays(profile, c) && ValidContext(c)
  {
    AttributesExactly(Member(profile, AttributesKey), c.attributes);
    ConsistencyExactly(Member(profile, ConsistencyKey), c.consistency);
    OptionalTextExactly(Member(profile, RequestIdKey), MAX_CORRELATION_ID_LEN, c.requestId);
  }

  predicate RequestSays(j: Json, r: AccessRequest) {
    && Member(j, SubjectKey).Some? && SubjectSays(Member(j, SubjectKey).value, r.subject)
    && Member(j, ActionKey).Some? && ActionSays(Member(j, ActionKey).value, r.action)
    && Member(j, ResourceKey).Some? && ResourceSays(Member(j, ResourceKey).value, r.resource)
    && ContextSays(Member(j, ContextKey), r.context)
  }

  lemma RequestOfParts(j: Json, r: AccessRequest)
    requires Member(j, SubjectKey).Some? && Member(j, ActionKey).Some? && Member(j, ResourceKey).Some?
    ensures DecodeRequest(j) == Some(r) <==>
            && DecodeSubject(Member(j, SubjectKey).value) == Some(r.subject)
            && DecodeAction(Member(j, ActionKey).value) == Some(r.action)
            && DecodeResource(Member(j, ResourceKey).value) == Some(r.resource)
            && DecodeContext(Member(j, ContextKey)) == Some(r.context)
  {
  }

  /** A document is read as a request exactly when it says that request, a valid one whose subject does not
      pose as anonymous. So no two requests are said by one document, and every other document is refused. */
  lemma RequestExactly(j: Json, r: AccessRequest)
    ensures DecodeRequest(j) == Some(r) <==> RequestSays(j, r) && ValidRequest(r) && !PosesAsAnonymous(r.subject)
  {
    if Member(j, SubjectKey).Some? && Member(j, ActionKey).Some? && Member(j, ResourceKey).Some? {
      SubjectExactly(Member(j, SubjectKey).value, r.subject);
      ActionExactly(Member(j, ActionKey).value, r.action);
      ResourceExactly(Member(j, ResourceKey).value, r.resource);
      ContextExactly(Member(j, ContextKey), r.context);
      RequestOfParts(j, r);
    }
  }

  // ---------------------------------------------------------------- decisions

  predicate MetadataSays(j: Json, m: AuthZenDecision.Metadata) {
    && OnlyMembers(j, AuthZenDecision.METADATA_FIELDS)
    && OptionalSays(Member(j, DecisionIdKey), m.decisionId) && OptionalSays(Member(j, PolicyRevisionKey), m.policyRevision)
    && OptionalSays(Member(j, ModelKey), m.model) && OptionalSays(Member(j, ModelVersionKey), m.modelVersion)
    && OptionalSays(Member(j, ReasonCodeKey), m.reasonCode)
    && OptionalSays(Member(j, ConsistencyTokenKey), m.consistencyToken)
  }

  lemma MetadataExactly(j: Json, m: AuthZenDecision.Metadata)
    ensures AuthZenDecision.DecodeMetadata(j) == Some(m) <==> MetadataSays(j, m) && AuthZenDecision.ValidMetadata(m)
  {
    OptionalTextExactly(Member(j, DecisionIdKey), MAX_CORRELATION_ID_LEN, m.decisionId);
    OptionalTextExactly(Member(j, PolicyRevisionKey), MAX_REVISION_LEN, m.policyRevision);
    OptionalIdentifierExactly(Member(j, ModelKey), MAX_ENTITY_TYPE_LEN, m.model);
    OptionalTextExactly(Member(j, ModelVersionKey), MAX_REVISION_LEN, m.modelVersion);
    OptionalIdentifierExactly(Member(j, ReasonCodeKey), MAX_NAME_LEN, m.reasonCode);
    OptionalTextExactly(Member(j, ConsistencyTokenKey), MAX_REVISION_LEN, m.consistencyToken);
  }

  /** No context, or one without the documented extension, says no metadata. */
  predicate DecisionContextSays(j: Option<Json>, m: AuthZenDecision.Metadata) {
    if j == None || j == Some(Null) then m == AuthZenDecision.NO_METADATA else
      && j.value.Obj?
      && match Member(j.value, ProfileKey)
         case None => m == AuthZenDecision.NO_METADATA
         case Some(profile) => MetadataSays(profile, m)
  }

  predicate DecisionSays(j: Json, d: AuthZenDecision.Decision) {
    Member(j, DecisionKey) == Some(Bool(d.allowed)) && DecisionContextSays(Member(j, ContextKey), d.metadata)
  }

  /** The extension is there and is not an object. */
  predicate HasScalarProfile(j: Json) {
    && Member(j, ContextKey).Some? && Member(Member(j, ContextKey).value, ProfileKey).Some?
    && !Member(Member(j, ContextKey).value, ProfileKey).value.Obj?
  }

  lemma DecisionContextExactly(j: Json, context: Json, m: AuthZenDecision.Metadata)
    requires Member(j, ContextKey) == Some(context) && context.Obj? && AuthZenDecision.HasDecision(j)
    requires !AuthZenDecision.CarriesObligation(j)
    ensures AuthZenDecision.ParseDecisionContext(Some(context.members)) == Ok(m) <==>
            DecisionContextSays(Some(context), m) && AuthZenDecision.ValidMetadata(m)
    ensures AuthZenDecision.ParseDecisionContext(Some(context.members)).Err? ==>
              AuthZenDecision.ParseDecisionContext(Some(context.members)) ==
              Err(if HasScalarProfile(j) then InvalidDecisionContext else InvalidJson)
  {
    AuthZenDecision.ObligationsAreSeen(context);
    AuthZenDecision.EmptyContextHasNothing(context.members);
    if Member(context, ProfileKey).Some? {
      AuthZenDecision.ObligationsAreSeen(Member(context, ProfileKey).value);
      MetadataExactly(Member(context, ProfileKey).value, m);
    }
  }

  /** A document is read as a decision exactly when it says that decision with valid metadata and carries no
      obligation. Every other document is refused: for an obligation beside a decision, else for an extension
      that is not an object, else as invalid JSON. */
  lemma DecisionExactly(j: Json, d: AuthZenDecision.Decision)
    ensures AuthZenDecision.DecodeDecision(j) == Ok(d) <==>
            DecisionSays(j, d) && AuthZenDecision.ValidMetadata(d.metadata) && !AuthZenDecision.CarriesObligation(j)
    ensures AuthZenDecision.DecodeDecision(j).Err? ==>
              AuthZenDecision.DecodeDecision(j).error ==
              if AuthZenDecision.HasDecision(j) && AuthZenDecision.CarriesObligation(j) then ObligationsUnsupported
              else if AuthZenDecision.HasDecision(j) && HasScalarProfile(j) then InvalidDecisionContext
              else InvalidJson
  {
    AuthZenDecision.ObligationsFailClosed(j);
    var context := Member(j, ContextKey);
    if AuthZenDecision.HasDecision(j) && !AuthZenDecision.CarriesObligation(j) && context.Some? && context.value.Obj? {
      DecisionContextExactly(j, context.value, d.metadata);
    }
  }
}
