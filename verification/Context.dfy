/** Validated identities and request contexts. */
module Context {
  import opened Common
  import opened Text

  const MAX_IDENTIFIER_BYTES: nat := 256
  const MAX_ISSUER_BYTES: nat := 512
  const MAX_CONSISTENCY_TOKEN_BYTES: nat := 4096

  type U64 = n: int | 0 <= n <= U64_MAX

  datatype ContextError = EmptyIdentifier | IdentifierTooLong | InvalidIdentifier | InvalidIssuer | InvalidLifetime

  datatype Assurance = Aal1 | Aal2

  datatype Principal = Principal(userId: string, issuer: string, systemAdministrator: bool)

  datatype AuthContext = AuthContext(
    principal: Principal,
    organizationId: Option<string>,
    sessionId: string,
    requestId: string,
    assurance: Assurance,
    issuedAt: U64,
    expiresAt: U64,
    decisionId: Option<string>,
    policyRevision: Option<string>)

  datatype Authorization = Authorization(
    permissions: set<string>,
    roleIds: set<string>,
    policyRevision: Option<string>,
    consistencyToken: Option<string>)

  datatype RequestContext = RequestContext(auth: AuthContext, authorization: Authorization)

  /** `validate_identifier`, shared by every identifier type. */
  function CheckIdentifier(value: string): Result<string, ContextError> {
    if value == [] then Err(EmptyIdentifier)
    else if Utf8Len(value) > MAX_IDENTIFIER_BYTES then Err(IdentifierTooLong)
    else if exists c :: c in value && (IsControl(c) || IsWhitespace(c) || c as int == 0) then Err(InvalidIdentifier)
    else Ok(value)
  }

  function CheckAll(values: seq<string>): Result<seq<string>, ContextError> {
    if values == [] then Ok([]) else
      match CheckIdentifier(values[0])
      case Err(e) => Err(e)
      case Ok(first) =>
        match CheckAll(values[1..])
        case Err(e) => Err(e)
        case Ok(rest) => Ok([first] + rest)
  }

  /** Text that is non-empty, bounded and free of control characters. */
  predicate BoundedText(value: string, limit: nat) {
    value != [] && Utf8Len(value) <= limit && !HasControl(value)
  }

  function NewPrincipal(userId: string, issuer: string, systemAdministrator: bool): Result<Principal, ContextError> {
    if !BoundedText(issuer, MAX_ISSUER_BYTES) then Err(InvalidIssuer)
    else Ok(Principal(userId, issuer, systemAdministrator))
  }

  function FromValidated(auth: AuthContext): Result<AuthContext, ContextError> {
    if auth.expiresAt <= auth.issuedAt then Err(InvalidLifetime) else Ok(auth)
  }

  ghost function NewAuthorization(permissions: seq<string>, roleIds: seq<string>, policyRevision: Option<string>,
                                  consistencyToken: Option<string>): Result<Authorization, ContextError> {
    match CheckAll(permissions)
    case Err(e) => Err(e)
    case Ok(checked) =>
      if consistencyToken.Some? && !BoundedText(consistencyToken.value, MAX_CONSISTENCY_TOKEN_BYTES)
      then Err(InvalidIdentifier)
      else Ok(Authorization(Elements(checked), Elements(roleIds), policyRevision, consistencyToken))
  }

  // ---------------------------------------------------------------- what the constructors guarantee

  predicate IsIdentifier(value: string) {
    CheckIdentifier(value).Ok?
  }

  /** Which texts are identifiers, and why the others are not. */
  lemma IdentifierExactly(value: string)
    ensures IsIdentifier(value) <==>
            value != [] && |Utf8(value)| <= 256 && forall c :: c in value ==> !IsControl(c) && !IsWhitespace(c)
    ensures IsIdentifier(value) ==> CheckIdentifier(value) == Ok(value)
    ensures value == [] ==> CheckIdentifier(value) == Err(EmptyIdentifier)
    ensures |Utf8(value)| > 256 ==> CheckIdentifier(value) == Err(IdentifierTooLong)
    ensures value != [] && |Utf8(value)| <= 256 && !IsIdentifier(value) ==> CheckIdentifier(value) == Err(InvalidIdentifier)
  {
    forall c | c in value && c as int == 0 ensures IsControl(c) {
    }
  }

  /** Which issuers a principal can have. */
  lemma PrincipalExactly(userId: string, issuer: string, systemAdministrator: bool)
    ensures NewPrincipal(userId, issuer, systemAdministrator) ==
            if 1 <= |Utf8(issuer)| <= 512 && (forall c :: c in issuer ==> !IsControl(c))
            then Ok(Principal(userId, issuer, systemAdministrator)) else Err(InvalidIssuer)
  {
  }

  predicate IsOptionalIdentifier(value: Option<string>) {
    value.Some? ==> IsIdentifier(value.value)
  }

  predicate ValidPrincipal(p: Principal) {
    IsIdentifier(p.userId) && BoundedText(p.issuer, MAX_ISSUER_BYTES)
  }

  /** The invariants of a context built by the validated constructors. */
  predicate Valid(c: RequestContext) {
    && ValidPrincipal(c.auth.principal)
    && IsOptionalIdentifier(c.auth.organizationId)
    && IsIdentifier(c.auth.sessionId)
    && IsIdentifier(c.auth.requestId)
    && c.auth.issuedAt < c.auth.expiresAt
    && IsOptionalIdentifier(c.auth.decisionId)
    && IsOptionalIdentifier(c.auth.policyRevision)
    && (forall p :: p in c.authorization.permissions ==> IsIdentifier(p))
    && (forall r :: r in c.authorization.roleIds ==> IsIdentifier(r))
    && IsOptionalIdentifier(c.authorization.policyRevision)
    && (c.authorization.consistencyToken.Some? ==>
          BoundedText(c.authorization.consistencyToken.value, MAX_CONSISTENCY_TOKEN_BYTES))
  }

  lemma KeptAsItIs(value: string)
    requires IsIdentifier(value)
    ensures CheckIdentifier(value) == Ok(value)
  {
  }

  lemma {:induction false} CheckAllAccepts(values: seq<string>)
    requires forall v :: v in values ==> IsIdentifier(v)
    ensures CheckAll(values) == Ok(values)
  {
    if values != [] {
      var first, rest := values[0], values[1..];
      assert values == [first] + rest && first in values;
      assert forall v :: v in rest ==> v in values;
      KeptAsItIs(first);
      CheckAllAccepts(rest);
    }
  }

  lemma {:induction false} CheckAllSound(values: seq<string>)
    ensures CheckAll(values).Ok? ==> CheckAll(values).value == values && forall v :: v in values ==> IsIdentifier(v)
  {
    if values != [] {
      CheckAllSound(values[1..]);
      assert values == [values[0]] + values[1..];
    }
  }

  /** Permissions must be identifiers, and a consistency token has 1 to 4096 bytes without control characters;
      the roles were checked before. */
  lemma AuthorizationExactly(permissions: seq<string>, roleIds: seq<string>, policyRevision: Option<string>, token: Option<string>)
    ensures NewAuthorization(permissions, roleIds, policyRevision, token).Ok? <==>
            && (forall p :: p in permissions ==> IsIdentifier(p))
            && (token.Some? ==> 1 <= |Utf8(token.value)| <= 4096 && forall c :: c in token.value ==> !IsControl(c))
    ensures (forall p :: p in permissions ==> IsIdentifier(p)) && NewAuthorization(permissions, roleIds, policyRevision, token).Err? ==>
              NewAuthorization(permissions, roleIds, policyRevision, token) == Err(InvalidIdentifier)
  {
    CheckAllSound(permissions);
    if forall p :: p in permissions ==> IsIdentifier(p) {
      CheckAllAccepts(permissions);
    }
  }
}
