/** Decision responses of the bounded AuthZEN 1.0 profile: fail-closed on obligations, tolerant of everything
    else the profile does not know. */
module AuthZenDecision {
  import opened Common
  import opened Json
  import opened AuthZenAttributes

  datatype Metadata = Metadata(
    decisionId: Option<string>,
    policyRevision: Option<string>,
    model: Option<string>,
    modelVersion: Option<string>,
    reasonCode: Option<string>,
    consistencyToken: Option<string>)

  datatype Decision = Decision(allowed: bool, metadata: Metadata)

  const NO_METADATA := Metadata(None, None, None, None, None, None)

  predicate ValidMetadata(m: Metadata) {
    && ValidOptionalText(m.decisionId, MAX_CORRELATION_ID_LEN)
    && ValidOptionalText(m.policyRevision, MAX_REVISION_LEN)
    && ValidOptionalIdentifier(m.model, MAX_ENTITY_TYPE_LEN)
    && ValidOptionalText(m.modelVersion, MAX_REVISION_LEN)
    && ValidOptionalIdentifier(m.reasonCode, MAX_NAME_LEN)
    && ValidOptionalText(m.consistencyToken, MAX_REVISION_LEN)
  }

  const METADATA_FIELDS: set<Field> :=
    {DecisionIdKey, PolicyRevisionKey, ModelKey, ModelVersionKey, ReasonCodeKey, ConsistencyTokenKey}

  function FieldValue(m: Metadata, f: Field): Option<string> {
    match f
    case DecisionIdKey => m.decisionId
    case PolicyRevisionKey => m.policyRevision
    case ModelKey => m.model
    case ModelVersionKey => m.modelVersion
    case ReasonCodeKey => m.reasonCode
    case ConsistencyTokenKey => m.consistencyToken
    case _ => None
  }

  /** Each metadata field that is present. */
  function EncodeMetadata(m: Metadata): Json {
    Obj(map f | f in METADATA_FIELDS && FieldValue(m, f).Some? :: Known(f) := Str(FieldValue(m, f).value))
  }

  /** Unknown members of the documented extension are refused. */
  function DecodeMetadata(j: Json): Option<Metadata> {
    if !OnlyMembers(j, METADATA_FIELDS) then None else
      match (DecodeOptionalText(Member(j, DecisionIdKey), MAX_CORRELATION_ID_LEN),
             DecodeOptionalText(Member(j, PolicyRevisionKey), MAX_REVISION_LEN),
             DecodeOptionalIdentifier(Member(j, ModelKey), MAX_ENTITY_TYPE_LEN),
             DecodeOptionalText(Member(j, ModelVersionKey), MAX_REVISION_LEN),
             DecodeOptionalIdentifier(Member(j, ReasonCodeKey), MAX_NAME_LEN),
             DecodeOptionalText(Member(j, ConsistencyTokenKey), MAX_REVISION_LEN))
      case (Some(decisionId), Some(policyRevision), Some(model), Some(modelVersion), Some(reasonCode), Some(consistencyToken)) =>
        Some(Metadata(decisionId, policyRevision, model, modelVersion, reasonCode, consistencyToken))
      case _ => None
  }

  /** A non-empty obligation under either reserved name. */
  predicate HasObligation(j: Json) {
    || (Member(j, ObligationsKey).Some? && IsNonEmpty(Member(j, ObligationsKey).value))
    || (Member(j, ObligationKey).Some? && IsNonEmpty(Member(j, ObligationKey).value))
  }

  /** `parse_decision_context`. */
  function ParseDecisionContext(context: Option<Members>): Result<Metadata, ContractError> {
    match context
    case None => Ok(NO_METADATA)
    case Some(members) =>
      if members == map[] then Ok(NO_METADATA)
      else if HasObligation(Obj(members)) then Err(ObligationsUnsupported)
      else match Member(Obj(members), ProfileKey)
        case None => Ok(NO_METADATA)
        case Some(profile) =>
          if !profile.Obj? then Err(InvalidDecisionContext)
          else if HasObligation(profile) then Err(ObligationsUnsupported)
          else match DecodeMetadata(profile)
            case None => Err(InvalidJson)
            case Some(metadata) => Ok(metadata)
  }

  function EncodeDecision(d: Decision): Json {
    Obj(map[Known(DecisionKey) := Bool(d.allowed)]
        + Optional(ContextKey, if d.metadata == NO_METADATA then None
                               else Some(Obj(map[Known(ProfileKey) := EncodeMetadata(d.metadata)]))))
  }

  /** `DecisionResponseV1::from_json_slice`, after parsing. */
  function DecodeDecision(j: Json): Result<Decision, ContractError> {
    match Member(j, DecisionKey)
    case Some(Bool(allowed)) =>
      var context := Member(j, ContextKey);
      if context.Some? && !context.value.Null? && !context.value.Obj? then Err(InvalidJson)
      else
        var members := if context.Some? && context.value.Obj? then Some(context.value.members) else None;
        (match ParseDecisionContext(members)
         case Err(e) => Err(e)
         case Ok(metadata) => Ok(Decision(allowed, metadata)))
    case _ => Err(InvalidJson)
  }

  // ---------------------------------------------------------------- round trip

  lemma MetadataMember(m: Metadata, f: Field)
    ensures Member(EncodeMetadata(m), f) == OptionalStr(FieldValue(m, f))
  {
    assert FieldValue(m, f).Some? ==> f in METADATA_FIELDS;
  }

  lemma MetadataMembers(m: Metadata)
    ensures OnlyMembers(EncodeMetadata(m), METADATA_FIELDS) && !HasObligation(EncodeMetadata(m))
  {
    MetadataMember(m, ObligationsKey);
    MetadataMember(m, ObligationKey);
  }

  lemma MetadataFromParts(j: Json, m: Metadata)
    requires OnlyMembers(j, METADATA_FIELDS)
    requires DecodeOptionalText(Member(j, DecisionIdKey), MAX_CORRELATION_ID_LEN) == Some(m.decisionId)
    requires DecodeOptionalText(Member(j, PolicyRevisionKey), MAX_REVISION_LEN) == Some(m.policyRevision)
    requires DecodeOptionalIdentifier(Member(j, ModelKey), MAX_ENTITY_TYPE_LEN) == Some(m.model)
    requires DecodeOptionalText(Member(j, ModelVersionKey), MAX_REVISION_LEN) == Some(m.modelVersion)
    requires DecodeOptionalIdentifier(Member(j, ReasonCodeKey), MAX_NAME_LEN) == Some(m.reasonCode)
    requires DecodeOptionalText(Member(j, ConsistencyTokenKey), MAX_REVISION_LEN) == Some(m.consistencyToken)
    ensures DecodeMetadata(j) == Some(m)
  {
  }

  /** The members of j are the fields of m. */
  predicate Writes(j: Json, m: Metadata) {
    && Member(j, DecisionIdKey) == OptionalStr(m.decisionId) && Member(j, PolicyRevisionKey) == OptionalStr(m.policyRevision)
    && Member(j, ModelKey) == OptionalStr(m.model) && Member(j, ModelVersionKey) == OptionalStr(m.modelVersion)
    && Member(j, ReasonCodeKey) == OptionalStr(m.reasonCode)
    && Member(j, ConsistencyTokenKey) == OptionalStr(m.consistencyToken)
  }

  lemma WritesEveryField(j: Json, m: Metadata)
    requires forall f :: Member(j, f) == OptionalStr(FieldValue(m, f))
    ensures Writes(j, m)
  {
    assert Member(j, DecisionIdKey) == OptionalStr(FieldValue(m, DecisionIdKey));
    assert Member(j, PolicyRevisionKey) == OptionalStr(FieldValue(m, PolicyRevisionKey));
    assert Member(j, ModelKey) == OptionalStr(FieldValue(m, ModelKey));
    assert Member(j, ModelVersionKey) == OptionalStr(FieldValue(m, ModelVersionKey));
    assert Member(j, ReasonCodeKey) == OptionalStr(FieldValue(m, ReasonCodeKey));
    assert Member(j, ConsistencyTokenKey) == OptionalStr(FieldValue(m, ConsistencyTokenKey));
  }

  lemma WrittenIsRead(j: Json, m: Metadata)
    requires OnlyMembers(j, METADATA_FIELDS) && Writes(j, m) && ValidMetadata(m)
    ensures DecodeMetadata(j) == Some(m)
  {
    OptionalTextRoundTrip(m.decisionId, MAX_CORRELATION_ID_LEN);
    OptionalTextRoundTrip(m.policyRevision, MAX_REVISION_LEN);
    OptionalIdentifierRoundTrip(m.model, MAX_ENTITY_TYPE_LEN);
    OptionalTextRoundTrip(m.modelVersion, MAX_REVISION_LEN);
    OptionalIdentifierRoundTrip(m.reasonCode, MAX_NAME_LEN);
    OptionalTextRoundTrip(m.consistencyToken, MAX_REVISION_LEN);
    MetadataFromParts(j, m);
  }

  lemma MetadataRoundTrip(m: Metadata)
    requires ValidMetadata(m)
    ensures DecodeMetadata(EncodeMetadata(m)) == Some(m)
  {
    MetadataMembers(m);
    forall f ensures Member(EncodeMetadata(m), f) == OptionalStr(FieldValue(m, f)) {
      MetadataMember(m, f);
    }
    WritesEveryField(EncodeMetadata(m), m);
    WrittenIsRead(EncodeMetadata(m), m);
  }

  /** Every decision the constructors can build survives its JSON form. */
  lemma DecisionRoundTrip(d: Decision)
    requires ValidMetadata(d.metadata)
    ensures DecodeDecision(EncodeDecision(d)) == Ok(d)
  {
    var j := EncodeDecision(d);
    assert Member(j, DecisionKey) == Some(Bool(d.allowed));
    if d.metadata == NO_METADATA {
      assert Member(j, ContextKey) == None;
    } else {
      var members: Members := map[Known(ProfileKey) := EncodeMetadata(d.metadata)];
      assert Member(j, ContextKey) == Some(Obj(members));
      ProfileOnlyContext(d.metadata, members);
    }
  }

  lemma ProfileOnlyContext(m: Metadata, members: Members)
    requires ValidMetadata(m) && members == map[Known(ProfileKey) := EncodeMetadata(m)]
    ensures ParseDecisionContext(Some(members)) == Ok(m)
  {
    assert Known(ProfileKey) in members;
    MetadataMembers(m);
    MetadataRoundTrip(m);
    ContextFromProfile(members, EncodeMetadata(m), m);
  }

  lemma ContextFromProfile(members: Members, profile: Json, m: Metadata)
    requires Member(Obj(members), ProfileKey) == Some(profile) && !HasObligation(Obj(members))
    requires profile.Obj? && !HasObligation(profile) && DecodeMetadata(profile) == Some(m)
    ensures ParseDecisionContext(Some(members)) == Ok(m)
  {
    assert Known(ProfileKey) in members;
  }

  // ---------------------------------------------------------------- fail closed, and tolerant

  /** The object has a member of that name that is neither null, nor an empty array, nor an empty object. */
  predicate Obliges(j: Json, name: Field) {
    && j.Obj? && Known(name) in j.members
    && j.members[Known(name)] != Null && j.members[Known(name)] != Arr([]) && j.members[Known(name)] != Obj(map[])
  }

  /** The document carries an obligation that the enforcement point cannot fulfil: in its context, or in the
      documented extension of it, under either name. */
  predicate CarriesObligation(j: Json) {
    && j.Obj? && Known(ContextKey) in j.members
    && var context := j.members[Known(ContextKey)];
       || Obliges(context, ObligationsKey) || Obliges(context, ObligationKey)
       || (context.Obj? && Known(ProfileKey) in context.members
           && (Obliges(context.members[Known(ProfileKey)], ObligationsKey) || Obliges(context.members[Known(ProfileKey)], ObligationKey)))
  }

  predicate HasDecision(j: Json) {
    j.Obj? && Known(DecisionKey) in j.members && j.members[Known(DecisionKey)].Bool?
  }

  /** The decoder sees exactly the obligations that are there. */
  lemma ObligationsAreSeen(j: Json)
    ensures HasObligation(j) <==> Obliges(j, ObligationsKey) || Obliges(j, ObligationKey)
  {
  }

  /** A response with a decision and an obligation is always refused, for that reason, and no accepted
      response carries one. */
  lemma ObligationsFailClosed(j: Json)
    ensures DecodeDecision(j) == Err(ObligationsUnsupported) <==> HasDecision(j) && CarriesObligation(j)
    ensures DecodeDecision(j).Ok? ==> HasDecision(j) && !CarriesObligation(j)
  {
    var context := Member(j, ContextKey);
    if context.Some? {
      ObligationsAreSeen(context.value);
      if Member(context.value, ProfileKey).Some? {
        ObligationsAreSeen(Member(context.value, ProfileKey).value);
      }
      if context.value.Obj? {
        EmptyContextHasNothing(context.value.members);
      }
    }
  }

  /** The answer of an accepted response is the boolean it carries. */
  lemma AcceptedAnswerIsTheDocuments(j: Json)
    requires DecodeDecision(j).Ok?
    ensures HasDecision(j) && DecodeDecision(j).value.allowed == j.members[Known(DecisionKey)].b
    ensures ValidMetadata(DecodeDecision(j).value.metadata)
  {
    var context := Member(j, ContextKey);
    if context.Some? && context.value.Obj? && Member(context.value, ProfileKey).Some? {
      DecodedMetadataIsValid(Member(context.value, ProfileKey).value);
    }
  }

  lemma DecodedMetadataIsValid(j: Json)
    requires DecodeMetadata(j).Some?
    ensures ValidMetadata(DecodeMetadata(j).value)
  {
  }

  lemma EmptyContextHasNothing(members: Members)
    ensures members == map[] ==> !HasObligation(Obj(members)) && Member(Obj(members), ProfileKey) == None
  {
  }

  const DECISION_CONTEXT_SCHEMA: Schema := Open(map[ProfileKey := Exact, ObligationsKey := Exact, ObligationKey := Exact])
  const DECISION_SCHEMA: Schema := Open(map[DecisionKey := Exact, ContextKey := DECISION_CONTEXT_SCHEMA])

  lemma ContextIgnoresUnknown(m: Members, m': Members)
    requires SameKnown(DECISION_CONTEXT_SCHEMA, Obj(m), Obj(m'))
    ensures ParseDecisionContext(Some(m)) == ParseDecisionContext(Some(m'))
  {
    var known, j, j' := DECISION_CONTEXT_SCHEMA.known, Obj(m), Obj(m');
    OpenMember(known, j, j', ProfileKey);
    OpenMember(known, j, j', ObligationsKey);
    OpenMember(known, j, j', ObligationKey);
    EmptyContextHasNothing(m);
    EmptyContextHasNothing(m');
  }

  /** Unknown members of the response and of its context never change the outcome, whether accepted or
      refused (section 10.1.1 of the AuthZEN Authorization API 1.0). */
  lemma DecisionIgnoresUnknown(j: Json, j': Json)
    requires SameKnown(DECISION_SCHEMA, j, j')
    ensures DecodeDecision(j) == DecodeDecision(j')
  {
    OpenMember(DECISION_SCHEMA.known, j, j', DecisionKey);
    OpenMember(DECISION_SCHEMA.known, j, j', ContextKey);
    var c, c' := Member(j, ContextKey), Member(j', ContextKey);
    if c.Some? && c.value != c'.value {
      ContextIgnoresUnknown(c.value.members, c'.value.members);
    }
  }
}
