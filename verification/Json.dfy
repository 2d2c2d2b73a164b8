/** JSON documents as trees. Member names are the names of the AuthZEN profile, each one constructor, or any
    other text. */
module Json {
  import opened Common

  /** `ProfileKey` is the member `wasi_authz`; the others carry their JSON name. */
  datatype Field =
    | SubjectKey | ActionKey | ResourceKey | ContextKey
    | TypeKey | IdKey | NameKey | PropertiesKey | ProfileKey
    | StateKey | IssuerKey | TenantIdKey | ScopesKey | AttributesKey
    | ValueKey | ProvenanceKey
    | ConsistencyKey | RequestIdKey | ModeKey | TokenKey
    | DecisionKey | DecisionIdKey | PolicyRevisionKey | ModelKey | ModelVersionKey | ReasonCodeKey | ConsistencyTokenKey
    | ObligationsKey | ObligationKey

  datatype MemberName = Known(field: Field) | Other(text: string)

  type Members = map<MemberName, Json>

  datatype Json =
    | Null
    | Bool(b: bool)
    | Integer(n: int)
    | Fraction(x: real)
    | Str(s: string)
    | Arr(items: seq<Json>)
    | Obj(members: Members)

  function Member(j: Json, k: Field): Option<Json> {
    if j.Obj? && Known(k) in j.members then Some(j.members[Known(k)]) else None
  }

  /** A member that is written only when there is something to write. */
  function Optional(k: Field, v: Option<Json>): Members {
    match v
    case None => map[]
    case Some(value) => map[Known(k) := value]
  }

  /** Decodes every element of an array, or none. */
  function DecodeAll<A>(items: seq<Json>, decode: Json -> Option<A>): (r: Option<seq<A>>)
    ensures r.Some? ==> |r.value| == |items|
  {
    if items == [] then Some([]) else
      match (DecodeAll(items[..|items| - 1], decode), decode(items[|items| - 1]))
      case (Some(rest), Some(a)) => Some(rest + [a])
      case _ => None
  }

  lemma {:induction false} DecodeAllIsPointwise<A>(items: seq<Json>, decode: Json -> Option<A>)
    ensures DecodeAll(items, decode).Some? <==> forall i :: 0 <= i < |items| ==> decode(items[i]).Some?
    ensures DecodeAll(items, decode).Some? ==>
              forall i :: 0 <= i < |items| ==> decode(items[i]) == Some(DecodeAll(items, decode).value[i])
  {
    if items != [] {
      var n := |items| - 1;
      DecodeAllIsPointwise(items[..n], decode);
      assert forall i :: 0 <= i < n ==> items[..n][i] == items[i];
    }
  }

  lemma DecodeAllGives<A>(items: seq<Json>, decode: Json -> Option<A>, values: seq<A>)
    requires |items| == |values| && forall i :: 0 <= i < |items| ==> decode(items[i]) == Some(values[i])
    ensures DecodeAll(items, decode) == Some(values)
  {
    DecodeAllIsPointwise(items, decode);
    assert DecodeAll(items, decode).value == values;
  }

  lemma DecodeAllAgrees<A>(a: seq<Json>, b: seq<Json>, decode: Json -> Option<A>)
    requires |a| == |b| && forall i :: 0 <= i < |a| ==> decode(a[i]) == decode(b[i])
    ensures DecodeAll(a, decode) == DecodeAll(b, decode)
  {
    DecodeAllIsPointwise(a, decode);
    DecodeAllIsPointwise(b, decode);
    if DecodeAll(a, decode).Some? {
      assert forall i :: 0 <= i < |a| ==> decode(b[i]).Some?;
      DecodeAllGives(b, decode, DecodeAll(a, decode).value);
    }
  }

  /** `is_nonempty_json_value`. */
  predicate IsNonEmpty(j: Json) {
    match j
    case Null => false
    case Arr(items) => items != []
    case Obj(members) => members != map[]
    case _ => true
  }

  // ---------------------------------------------------------------- documents that may differ in unknown members

  /** Which members a level of a document knows, and whether it tolerates others. */
  datatype Schema =
    | Exact
    | Items(item: Schema)
    | Open(known: map<Field, Schema>)
    | Closed(known: map<Field, Schema>)

  predicate Corresponds(m: Members, m': Members, f: Field) {
    Known(f) in m <==> Known(f) in m'
  }

  /** The documents differ at most in members that an open level does not know: such members may be
      added, removed or changed at will. */
  ghost predicate SameKnown(schema: Schema, j: Json, j': Json)
    decreases schema
  {
    j == j' ||
    match schema
    case Exact => false
    case Items(item) =>
      && j.Arr? && j'.Arr? && |j.items| == |j'.items|
      && forall i :: 0 <= i < |j.items| ==> SameKnown(item, j.items[i], j'.items[i])
    case Open(known) =>
      && j.Obj? && j'.Obj?
      && forall f :: f in known ==>
           && Corresponds(j.members, j'.members, f)
           && (Known(f) in j.members ==> SameKnown(known[f], j.members[Known(f)], j'.members[Known(f)]))
    case Closed(known) =>
      && j.Obj? && j'.Obj? && j.members.Keys == j'.members.Keys
      && forall k :: k in j.members ==>
           if k.Known? && k.field in known then SameKnown(known[k.field], j.members[k], j'.members[k])
           else j.members[k] == j'.members[k]
  }

  lemma OpenMember(known: map<Field, Schema>, j: Json, j': Json, f: Field)
    requires SameKnown(Open(known), j, j') && f in known
    ensures Member(j, f).None? <==> Member(j', f).None?
    ensures Member(j, f).Some? ==> SameKnown(known[f], Member(j, f).value, Member(j', f).value)
  {
    if j != j' {
      assert Corresponds(j.members, j'.members, f);
    }
  }

  lemma ClosedMember(known: map<Field, Schema>, j: Json, j': Json, f: Field)
    requires SameKnown(Closed(known), j, j') && f in known
    ensures Member(j, f).None? <==> Member(j', f).None?
    ensures Member(j, f).Some? ==> SameKnown(known[f], Member(j, f).value, Member(j', f).value)
  {
  }
}
