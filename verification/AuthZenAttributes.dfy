/** Bounded texts, scopes and attribute sets of the AuthZEN profile, with their wire form. */
module AuthZenAttributes {
  import opened Common
  import opened Text
  import opened Json

  const MAX_DOCUMENT_BYTES: nat := 64 * 1024
  const MAX_ATTRIBUTES: nat := 32
  const MAX_LIST_VALUES: nat := 32
  const MAX_VALUE_LEN: nat := 2048
  const MAX_ENTITY_ID_LEN: nat := 512
  const MAX_ENTITY_TYPE_LEN: nat := 128
  const MAX_NAME_LEN: nat := 128
  const MAX_CORRELATION_ID_LEN: nat := 256
  const MAX_REVISION_LEN: nat := 512

  datatype ContractError =
    | SensitiveAttributeName
    | TooManyAttributes
    | DuplicateAttribute(name: string)
    | TooManyAttributeValues
    | DocumentTooLarge
    | InvalidJson
    | ObligationsUnsupported
    | InvalidDecisionContext

  // ---------------------------------------------------------------- texts

  /** `validate_text`. */
  predicate ValidText(s: string, limit: nat) {
    s != [] && Utf8Len(s) <= limit && Trim(s) == s && !HasControl(s)
  }

  /** Which texts are valid: those of one byte up to the limit that hold no control character and neither
      start nor end with white space. */
  lemma TextExactly(s: string, limit: nat)
    ensures ValidText(s, limit) <==>
            && 1 <= |Utf8(s)| <= limit && (forall c :: c in s ==> !IsControl(c))
            && !IsWhitespace(s[0]) && !IsWhitespace(s[|s| - 1])
  {
  }

  predicate IsIdentifierChar(c: char) {
    'a' <= c <= 'z' || 'A' <= c <= 'Z' || '0' <= c <= '9' || c == '-' || c == '_' || c == '.' || c == ':' || c == '/'
  }

  /** `validate_identifier`. */
  predicate ValidIdentifier(s: string, limit: nat) {
    s != [] && Utf8Len(s) <= limit && forall c :: c in s ==> IsIdentifierChar(c)
  }

  predicate ValidOptionalText(s: Option<string>, limit: nat) {
    s.Some? ==> ValidText(s.value, limit)
  }

  predicate ValidOptionalIdentifier(s: Option<string>, limit: nat) {
    s.Some? ==> ValidIdentifier(s.value, limit)
  }

  function OptionalStr(s: Option<string>): Option<Json> {
    match s case None => None case Some(text) => Some(Str(text))
  }

  function DecodeText(j: Option<Json>, limit: nat): Option<string> {
    if j.Some? && j.value.Str? && ValidText(j.value.s, limit) then Some(j.value.s) else None
  }

  function DecodeIdentifier(j: Option<Json>, limit: nat): Option<string> {
    if j.Some? && j.value.Str? && ValidIdentifier(j.value.s, limit) then Some(j.value.s) else None
  }

  /** An `Option` field: absent and `null` both mean none. The outer option is the verdict. */
  function DecodeOptionalText(j: Option<Json>, limit: nat): Option<Option<string>> {
    if j.None? || j.value.Null? then Some(None)
    else if DecodeText(j, limit).Some? then Some(DecodeText(j, limit)) else None
  }

  function DecodeOptionalIdentifier(j: Option<Json>, limit: nat): Option<Option<string>> {
    if j.None? || j.value.Null? then Some(None)
    else if DecodeIdentifier(j, limit).Some? then Some(DecodeIdentifier(j, limit)) else None
  }

  lemma TextRoundTrip(s: string, limit: nat)
    requires ValidText(s, limit)
    ensures DecodeText(Some(Str(s)), limit) == Some(s)
  {
  }

  lemma OptionalTextRoundTrip(s: Option<string>, limit: nat)
    requires ValidOptionalText(s, limit)
    ensures DecodeOptionalText(OptionalStr(s), limit) == Some(s)
  {
  }

  lemma OptionalIdentifierRoundTrip(s: Option<string>, limit: nat)
    requires ValidOptionalIdentifier(s, limit)
    ensures DecodeOptionalIdentifier(OptionalStr(s), limit) == Some(s)
  {
  }

  function DecodeStrings(items: seq<Json>): Option<seq<string>> {
    if items == [] then Some([]) else
      match DecodeStrings(items[..|items| - 1])
      case Some(rest) => if items[|items| - 1].Str? then Some(rest + [items[|items| - 1].s]) else None
      case None => None
  }

  function EncodeStrings(values: seq<string>): seq<Json> {
    seq(|values|, i requires 0 <= i < |values| => Str(values[i]))
  }

  lemma {:induction false} StringsRoundTrip(values: seq<string>)
    ensures DecodeStrings(EncodeStrings(values)) == Some(values)
  {
    if values != [] {
      var n := |values| - 1;
      StringsRoundTrip(values[..n]);
      assert EncodeStrings(values)[..n] == EncodeStrings(values[..n]);
      assert values == values[..n] + [values[n]];
    }
  }

  // ---------------------------------------------------------------- scopes

  /** `Vec::dedup`. */
  function Dedup(s: seq<string>): seq<string> {
    if |s| <= 1 then s
    else if s[|s| - 1] == s[|s| - 2] then Dedup(s[..|s| - 1])
    else Dedup(s[..|s| - 1]) + [s[|s| - 1]]
  }

  lemma ElementsOfAppend<T>(s: seq<T>, x: T)
    ensures Elements(s + [x]) == Elements(s) + {x}
  {
  }

  lemma {:induction false} DedupOfSorted(s: seq<string>)
    requires Sorted(s)
    ensures StrictlySorted(Dedup(s)) && Elements(Dedup(s)) == Elements(s)
  {
    if |s| > 1 {
      var n := |s| - 1;
      var front, d := s[..n], Dedup(s[..n]);
      DedupOfSorted(front);
      assert s == front + [s[n]];
      ElementsOfAppend(front, s[n]);
      if s[n] == s[n - 1] {
        assert front[n - 1] in Elements(front);
      } else {
        ElementsOfAppend(d, s[n]);
        forall i | 0 <= i < |d| ensures Less(d[i], s[n]) {
          assert d[i] in Elements(front);
          LastIsLarger(s, d[i]);
        }
      }
    }
  }

  lemma LastIsLarger(s: seq<string>, x: string)
    requires |s| > 1 && Sorted(s) && s[|s| - 1] != s[|s| - 2] && x in s[..|s| - 1]
    ensures Less(x, s[|s| - 1])
  {
    var n := |s| - 1;
    var k :| 0 <= k < n && s[k] == x;
    if x != s[n - 1] {
      LessTransitive(x, s[n - 1], s[n]);
    }
  }

  /** The canonical form of a scope list: each scope once, in order. */
  ghost function Canonical(scopes: seq<string>): seq<string> {
    Listing(Elements(scopes))
  }

  /** `normalize_scopes`, for whatever order the unstable sort leaves equal scopes in. */
  lemma NormalizeIsCanonical(scopes: seq<string>, sorted: seq<string>)
    requires Sorted(sorted) && multiset(sorted) == multiset(scopes)
    ensures Dedup(sorted) == Canonical(scopes)
  {
    DedupOfSorted(sorted);
    assert forall x :: x in sorted <==> x in multiset(sorted);
    assert forall x :: x in scopes <==> x in multiset(scopes);
    StrictlySortedUnique(Dedup(sorted), Canonical(scopes));
  }

  predicate ValidScopes(scopes: seq<string>) {
    |scopes| <= MAX_LIST_VALUES && StrictlySorted(scopes)
    && forall i :: 0 <= i < |scopes| ==> ValidIdentifier(scopes[i], MAX_NAME_LEN)
  }

  ghost function NormalizeScopes(scopes: seq<string>): Result<seq<string>, ContractError> {
    if |scopes| > MAX_LIST_VALUES then Err(TooManyAttributeValues) else Ok(Canonical(scopes))
  }

  /** Normal lists are left alone, and normalizing valid scopes makes them normal. */
  lemma NormalizeIsIdempotent(scopes: seq<string>)
    requires forall s :: s in scopes ==> ValidIdentifier(s, MAX_NAME_LEN)
    ensures |scopes| <= MAX_LIST_VALUES ==>
              && ValidScopes(Canonical(scopes)) && Elements(Canonical(scopes)) == Elements(scopes)
              && NormalizeScopes(Canonical(scopes)) == Ok(Canonical(scopes))
    ensures |scopes| > 32 ==> NormalizeScopes(scopes) == Err(TooManyAttributeValues)
  {
    var c := Canonical(scopes);
    DistinctIsNoLonger(c, scopes);
    forall i | 0 <= i < |c| ensures c[i] in scopes {
      assert c[i] in Elements(c);
    }
    StrictlySortedUnique(Canonical(c), c);
  }

  lemma {:induction false} DistinctIsNoLonger(c: seq<string>, s: seq<string>)
    requires StrictlySorted(c) && Elements(c) <= Elements(s)
    ensures |c| <= |s|
  {
    StrictlySortedCount(c);
    ElementsCount(s);
    var rest := Elements(s) - Elements(c);
    assert Elements(s) == Elements(c) + rest;
  }

  lemma {:induction false} StrictlySortedCount(c: seq<string>)
    requires StrictlySorted(c)
    ensures |Elements(c)| == |c|
  {
    if c != [] {
      StrictlySortedCount(c[1..]);
      TailElements(c);
      assert c[0] in Elements(c);
    }
  }

  lemma {:induction false} ElementsCount(s: seq<string>)
    ensures |Elements(s)| <= |s|
  {
    if s != [] {
      ElementsCount(s[1..]);
      assert s == [s[0]] + s[1..];
      assert Elements(s) == {s[0]} + Elements(s[1..]);
    }
  }

  ghost function DecodeScopes(j: Option<Json>): Option<seq<string>> {
    if j.None? then Some([])
    else if !j.value.Arr? then None
    else match DecodeStrings(j.value.items)
      case None => None
      case Some(scopes) =>
        if (exists s :: s in scopes && !ValidIdentifier(s, MAX_NAME_LEN)) || NormalizeScopes(scopes).Err? then None
        else Some(NormalizeScopes(scopes).value)
  }

  function EncodeScopes(scopes: seq<string>): Option<Json> {
    if scopes == [] then None else Some(Arr(EncodeStrings(scopes)))
  }

  lemma ScopesRoundTrip(scopes: seq<string>)
    requires ValidScopes(scopes)
    ensures DecodeScopes(EncodeScopes(scopes)) == Some(scopes)
  {
    StringsRoundTrip(scopes);
    StrictlySortedUnique(Canonical(scopes), scopes);
  }

  lemma DecodedScopesAreValid(j: Option<Json>)
    requires DecodeScopes(j).Some?
    ensures ValidScopes(DecodeScopes(j).value)
  {
    if j.Some? {
      NormalizeIsIdempotent(DecodeStrings(j.value.items).value);
    }
  }

  // ---------------------------------------------------------------- attributes

  datatype Provenance = IdentityProvider | ResourceStore | Application | Gateway | PolicyInformationPoint

  datatype AttributeValue =
    | StringValue(text: string)
    | IntegerValue(n: int)
    | BooleanValue(b: bool)
    | ListValue(texts: seq<string>)

  datatype Attribute = Attribute(name: string, value: AttributeValue, provenance: Provenance)

  /** `name.split(['.', '-', '_', ':', '/'])`. */
  function Segments(name: string): (r: seq<string>)
    ensures r != []
  {
    if name == [] then [[]]
    else if name[0] in {'.', '-', '_', ':', '/'} then [[]] + Segments(name[1..])
    else var rest := Segments(name[1..]); [[name[0]] + rest[0]] + rest[1..]
  }

  const RESERVED: set<string> := {
    "authorization", "cookie", "credential", "password", "secret", "token",
    "access-token", "refresh-token", "client-secret", "session-secret"}

  /** `is_sensitive_attribute_name`. */
  predicate IsSensitive(name: string) {
    exists i :: 0 <= i < |Segments(name)| && Lower(Segments(name)[i]) in RESERVED
  }

  predicate IsSeparator(c: char) {
    c in {'.', '-', '_', ':', '/'}
  }

  /** The characters from `i` to `j` are one of the parts that the separators cut the name into. */
  predicate IsPart(name: string, i: nat, j: nat) {
    && i <= j <= |name|
    && (i == 0 || IsSeparator(name[i - 1]))
    && (j == |name| || IsSeparator(name[j]))
    && forall k :: i <= k < j ==> !IsSeparator(name[k])
  }

  /** Every segment is a part of the name. */
  lemma {:induction false} SegmentIsPart(name: string, k: nat) returns (i: nat, j: nat)
    requires k < |Segments(name)|
    ensures IsPart(name, i, j) && name[i..j] == Segments(name)[k]
    ensures k == 0 <==> i == 0
    decreases name
  {
    if name == [] || (IsSeparator(name[0]) && k == 0) {
      i, j := 0, 0;
    } else {
      var i', j' := SegmentIsPart(name[1..], if IsSeparator(name[0]) then k - 1 else k);
      assert name[i' + 1..j' + 1] == name[1..][i'..j'];
      i, j := if k == 0 then 0 else i' + 1, j' + 1;
      if k == 0 {
        assert name[0..j] == [name[0]] + name[1..j];
      }
    }
  }

  /** Every part of the name is a segment. */
  lemma {:induction false} PartIsSegment(name: string, i: nat, j: nat) returns (k: nat)
    requires IsPart(name, i, j)
    ensures k < |Segments(name)| && Segments(name)[k] == name[i..j]
    ensures i == 0 ==> k == 0
    ensures k == 0 ==> i == 0
    decreases name
  {
    if i == 0 {
      k := 0;
      FirstSegment(name, j);
    } else {
      var rest := name[1..];
      assert rest[i - 1..j - 1] == name[i..j];
      k := PartIsSegment(rest, i - 1, j - 1);
      if IsSeparator(name[0]) {
        k := k + 1;
      }
    }
  }

  lemma {:induction false} FirstSegment(name: string, j: nat)
    requires IsPart(name, 0, j)
    ensures Segments(name)[0] == name[..j]
    decreases name
  {
    if name != [] && !IsSeparator(name[0]) {
      assert j > 0;
      assert name[..j] == [name[0]] + name[1..][..j - 1];
      FirstSegment(name[1..], j - 1);
    }
  }

  /** A name is sensitive exactly when one of the parts between separators is reserved, in whatever case. */
  lemma SensitiveExactly(name: string)
    ensures IsSensitive(name) <==> exists i: nat, j: nat :: IsPart(name, i, j) && Lower(name[i..j]) in RESERVED
  {
    if IsSensitive(name) {
      var k :| 0 <= k < |Segments(name)| && Lower(Segments(name)[k]) in RESERVED;
      var i, j := SegmentIsPart(name, k);
    }
    if i: nat, j: nat :| IsPart(name, i, j) && Lower(name[i..j]) in RESERVED {
      var k := PartIsSegment(name, i, j);
    }
  }

  predicate IsI64(n: int) {
    -0x8000_0000_0000_0000 <= n < 0x8000_0000_0000_0000
  }

  predicate ValidValue(v: AttributeValue) {
    match v
    case StringValue(text) => ValidText(text, MAX_VALUE_LEN)
    case IntegerValue(n) => IsI64(n)
    case BooleanValue(_) => true
    case ListValue(texts) =>
      |texts| <= MAX_LIST_VALUES && forall i :: 0 <= i < |texts| ==> ValidText(texts[i], MAX_VALUE_LEN)
  }

  predicate ValidAttribute(a: Attribute) {
    ValidIdentifier(a.name, MAX_NAME_LEN) && !IsSensitive(a.name) && ValidValue(a.value)
  }

  predicate DistinctNames(attributes: seq<Attribute>) {
    forall i, j :: 0 <= i < j < |attributes| ==> attributes[i].name != attributes[j].name
  }

  predicate ValidAttributes(attributes: seq<Attribute>) {
    && |attributes| <= MAX_ATTRIBUTES && DistinctNames(attributes)
    && forall i :: 0 <= i < |attributes| ==> ValidAttribute(attributes[i])
  }

  /** `validate_attributes`: accepts exactly the bounded sets without reserved or repeated names, and names
      the first offender otherwise. */
  method ValidateAttributes(attributes: seq<Attribute>) returns (r: Option<ContractError>)
    ensures r == None <==>
            && |attributes| <= MAX_ATTRIBUTES && DistinctNames(attributes)
            && forall i :: 0 <= i < |attributes| ==> !IsSensitive(attributes[i].name)
    ensures r == Some(TooManyAttributes) <==> |attributes| > MAX_ATTRIBUTES
    ensures r.Some? && r.value.DuplicateAttribute? ==>
              exists i, j :: 0 <= i < j < |attributes| && attributes[i].name == attributes[j].name == r.value.name
                             && DistinctNames(attributes[..j])
    ensures r == Some(SensitiveAttributeName) ==>
              exists j :: 0 <= j < |attributes| && IsSensitive(attributes[j].name) && DistinctNames(attributes[..j])
    ensures r.Some? ==> r.value.TooManyAttributes? || r.value.SensitiveAttributeName? || r.value.DuplicateAttribute?
  {
    if |attributes| > MAX_ATTRIBUTES {
      return Some(TooManyAttributes);
    }
    var names: set<string> := {};
    for i := 0 to |attributes|
      invariant forall n :: n in names <==> exists j :: 0 <= j < i && attributes[j].name == n
      invariant DistinctNames(attributes[..i])
      invariant forall j :: 0 <= j < i ==> !IsSensitive(attributes[j].name)
    {
      var name := attributes[i].name;
      if IsSensitive(name) {
        return Some(SensitiveAttributeName);
      }
      if name in names {
        return Some(DuplicateAttribute(name));
      }
      names := names + {name};
    }
    assert attributes[..|attributes|] == attributes;
    return None;
  }

  /** `AttributesV1`, grown one attribute at a time. */
  class AttributeSet {
    var items: seq<Attribute>

    constructor ()
      ensures items == [] && ValidAttributes(items)
    {
      items := [];
    }

    /** `AttributesV1::insert` keeps the set valid, and a refusal changes nothing. */
    method Insert(attribute: Attribute) returns (r: Option<ContractError>)
      requires ValidAttributes(items) && ValidAttribute(attribute)
      modifies this
      ensures ValidAttributes(items)
      ensures items == if r.None? then old(items) + [attribute] else old(items)
      ensures r == None <==> |old(items)| < MAX_ATTRIBUTES && forall a :: a in old(items) ==> a.name != attribute.name
      ensures r.Some? ==> r.value == if |old(items)| >= MAX_ATTRIBUTES then TooManyAttributes else DuplicateAttribute(attribute.name)
    {
      if |items| >= MAX_ATTRIBUTES {
        return Some(TooManyAttributes);
      }
      if exists a :: a in items && a.name == attribute.name {
        return Some(DuplicateAttribute(attribute.name));
      }
      items := items + [attribute];
      return None;
    }
  }

  // ---------------------------------------------------------------- the wire form of attributes

  function ProvenanceText(p: Provenance): string {
    match p
    case IdentityProvider => "identity_provider"
    case ResourceStore => "resource_store"
    case Application => "application"
    case Gateway => "gateway"
    case PolicyInformationPoint => "policy_information_point"
  }

  function DecodeProvenance(j: Option<Json>): Option<Provenance> {
    if j.None? || !j.value.Str? then None
    else if j.value.s == "identity_provider" then Some(IdentityProvider)
    else if j.value.s == "resource_store" then Some(ResourceStore)
    else if j.value.s == "application" then Some(Application)
    else if j.value.s == "gateway" then Some(Gateway)
    else if j.value.s == "policy_information_point" then Some(PolicyInformationPoint)
    else None
  }

  lemma ProvenanceRoundTrip(p: Provenance)
    ensures DecodeProvenance(Some(Str(ProvenanceText(p)))) == Some(p)
  {
    assert |"identity_provider"| == 17 && |"resource_store"| == 14 && |"application"| == 11;
    assert |"gateway"| == 7 && |"policy_information_point"| == 24;
  }

  function Tagged(tag: string, content: Json): Json {
    Obj(map[Known(TypeKey) := Str(tag), Known(ValueKey) := content])
  }

  function EncodeValue(v: AttributeValue): Json {
    match v
    case StringValue(text) => Tagged("string", Str(text))
    case IntegerValue(n) => Tagged("integer", Integer(n))
    case BooleanValue(b) => Tagged("boolean", Bool(b))
    case ListValue(texts) => Tagged("string_list", Arr(EncodeStrings(texts)))
  }

  function DecodeContent(tag: string, content: Json): Option<AttributeValue> {
    if tag == "string" then
      if content.Str? && ValidText(content.s, MAX_VALUE_LEN) then Some(StringValue(content.s)) else None
    else if tag == "integer" then
      if content.Integer? && IsI64(content.n) then Some(IntegerValue(content.n)) else None
    else if tag == "boolean" then
      if content.Bool? then Some(BooleanValue(content.b)) else None
    else if tag == "string_list" then
      if !content.Arr? then None else
        match DecodeStrings(content.items)
        case None => None
        case Some(texts) => if ValidValue(ListValue(texts)) then Some(ListValue(texts)) else None
    else None
  }

  function DecodeValue(j: Option<Json>): Option<AttributeValue> {
    if j.None? then None else
      match (Member(j.value, TypeKey), Member(j.value, ValueKey))
      case (Some(Str(tag)), Some(content)) => DecodeContent(tag, content)
      case _ => None
  }

  lemma TagsDiffer()
    ensures "string" != "integer" && "string" != "boolean" && "string" != "string_list"
    ensures "integer" != "boolean" && "integer" != "string_list" && "boolean" != "string_list"
  {
    assert "integer"[0] == 'i' && "boolean"[0] == 'b';
    assert |"string"| == 6 && |"integer"| == 7 && |"boolean"| == 7 && |"string_list"| == 11;
  }

  lemma ValueRoundTrip(v: AttributeValue)
    requires ValidValue(v)
    ensures DecodeValue(Some(EncodeValue(v))) == Some(v)
  {
    TagsDiffer();
    if v.ListValue? {
      StringsRoundTrip(v.texts);
    }
  }

  function EncodeAttribute(a: Attribute): Json {
    Obj(map[Known(NameKey) := Str(a.name),
            Known(ValueKey) := EncodeValue(a.value),
            Known(ProvenanceKey) := Str(ProvenanceText(a.provenance))])
  }

  predicate OnlyMembers(j: Json, allowed: set<Field>) {
    j.Obj? && forall k :: k in j.members ==> k.Known? && k.field in allowed
  }

  function DecodeAttribute(j: Json): Option<Attribute> {
    if !OnlyMembers(j, {NameKey, ValueKey, ProvenanceKey}) then None else
      match (DecodeIdentifier(Member(j, NameKey), MAX_NAME_LEN), DecodeValue(Member(j, ValueKey)),
             DecodeProvenance(Member(j, ProvenanceKey)))
      case (Some(name), Some(value), Some(provenance)) =>
        if IsSensitive(name) then None else Some(Attribute(name, value, provenance))
      case _ => None
  }

  lemma AttributeRoundTrip(a: Attribute)
    requires ValidAttribute(a)
    ensures DecodeAttribute(EncodeAttribute(a)) == Some(a)
  {
    ValueRoundTrip(a.value);
    ProvenanceRoundTrip(a.provenance);
  }

  function DecodeItems(items: seq<Json>): Option<seq<Attribute>> {
    DecodeAll(items, DecodeAttribute)
  }

  function EncodeItems(attributes: seq<Attribute>): seq<Json> {
    seq(|attributes|, i requires 0 <= i < |attributes| => EncodeAttribute(attributes[i]))
  }

  /** An absent attribute set is empty. */
  function DecodeAttributes(j: Option<Json>): Option<seq<Attribute>> {
    if j.None? then Some([])
    else if !j.value.Arr? then None
    else match DecodeItems(j.value.items)
      case None => None
      case Some(attributes) =>
        if |attributes| <= MAX_ATTRIBUTES && DistinctNames(attributes) then Some(attributes) else None
  }

  function EncodeAttributes(attributes: seq<Attribute>): Option<Json> {
    if attributes == [] then None else Some(Arr(EncodeItems(attributes)))
  }

  lemma ItemsRoundTrip(attributes: seq<Attribute>)
    requires forall i :: 0 <= i < |attributes| ==> ValidAttribute(attributes[i])
    ensures DecodeItems(EncodeItems(attributes)) == Some(attributes)
  {
    var items := EncodeItems(attributes);
    var decode := DecodeAttribute;
    forall i | 0 <= i < |items| ensures decode(items[i]) == Some(attributes[i]) {
      AttributeRoundTrip(attributes[i]);
    }
    DecodeAllGives(items, decode, attributes);
  }

  lemma AttributesRoundTrip(attributes: seq<Attribute>)
    requires ValidAttributes(attributes)
    ensures DecodeAttributes(EncodeAttributes(attributes)) == Some(attributes)
  {
    ItemsRoundTrip(attributes);
  }

  lemma DecodedAttributeIsValid(j: Json)
    requires DecodeAttribute(j).Some?
    ensures ValidAttribute(DecodeAttribute(j).value)
  {
  }

  lemma DecodedItemsAreValid(items: seq<Json>)
    requires DecodeItems(items).Some?
    ensures forall i :: 0 <= i < |DecodeItems(items).value| ==> ValidAttribute(DecodeItems(items).value[i])
  {
    DecodeAllIsPointwise(items, DecodeAttribute);
    forall i | 0 <= i < |items| ensures ValidAttribute(DecodeItems(items).value[i]) {
      DecodedAttributeIsValid(items[i]);
    }
  }

  lemma DecodedAttributesAreValid(j: Option<Json>)
    requires DecodeAttributes(j).Some?
    ensures ValidAttributes(DecodeAttributes(j).value)
  {
    if j.Some? {
      DecodedItemsAreValid(j.value.items);
    }
  }

  // ---------------------------------------------------------------- unknown members

  /** A tagged value tolerates other members; an attribute does not. */
  const VALUE_SCHEMA: Schema := Open(map[TypeKey := Exact, ValueKey := Exact])
  const ATTRIBUTE_SCHEMA: Schema := Closed(map[NameKey := Exact, ValueKey := VALUE_SCHEMA, ProvenanceKey := Exact])
  const ATTRIBUTES_SCHEMA: Schema := Items(ATTRIBUTE_SCHEMA)

  lemma ValueIgnoresUnknown(j: Json, j': Json)
    requires SameKnown(VALUE_SCHEMA, j, j')
    ensures DecodeValue(Some(j)) == DecodeValue(Some(j'))
  {
    OpenMember(VALUE_SCHEMA.known, j, j', TypeKey);
    OpenMember(VALUE_SCHEMA.known, j, j', ValueKey);
  }

  lemma AttributeIgnoresUnknown(j: Json, j': Json)
    requires SameKnown(ATTRIBUTE_SCHEMA, j, j')
    ensures DecodeAttribute(j) == DecodeAttribute(j')
  {
    var known := ATTRIBUTE_SCHEMA.known;
    ClosedMember(known, j, j', NameKey);
    ClosedMember(known, j, j', ValueKey);
    ClosedMember(known, j, j', ProvenanceKey);
    if Member(j, ValueKey).Some? {
      ValueIgnoresUnknown(Member(j, ValueKey).value, Member(j', ValueKey).value);
    }
  }

  lemma ItemsIgnoreUnknown(a: seq<Json>, b: seq<Json>)
    requires |a| == |b| && forall i :: 0 <= i < |a| ==> SameKnown(ATTRIBUTE_SCHEMA, a[i], b[i])
    ensures DecodeItems(a) == DecodeItems(b)
  {
    var decode := DecodeAttribute;
    forall i | 0 <= i < |a| ensures decode(a[i]) == decode(b[i]) {
      AttributeIgnoresUnknown(a[i], b[i]);
    }
    DecodeAllAgrees(a, b, decode);
  }

  lemma AttributesIgnoreUnknown(j: Json, j': Json)
    requires SameKnown(ATTRIBUTES_SCHEMA, j, j')
    ensures DecodeAttributes(Some(j)) == DecodeAttributes(Some(j'))
  {
    if j != j' {
      ItemsIgnoreUnknown(j.items, j'.items);
    }
  }
}
