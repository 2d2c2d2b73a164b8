/** Issuer-scoped identifiers handed to Cedar and SpiceDB. */
module Identity {
  import opened Common
  import opened Text
  import opened Context
  import Base64Url

  /** `canonical_principal_id` and `canonical_subject_id`: issuer, NUL, user id. */
  function CanonicalId(p: Principal): string {
    "v1_" + Base64Url.Encode(Utf8(p.issuer) + [0] + Utf8(p.userId))
  }

  predicate IsIdByte(b: Byte) {
    || 'a' as int <= b <= 'z' as int || 'A' as int <= b <= 'Z' as int || '0' as int <= b <= '9' as int
    || b in {'/' as int, '_' as int, '|' as int, '-' as int, '=' as int, '+' as int}
  }

  /** `is_spicedb_id`. */
  predicate IsSpicedbId(value: string) {
    && value != []
    && Utf8Len(value) <= 1024
    && forall b :: b in Utf8(value) ==> IsIdByte(b)
  }

  lemma {:induction false} SplitAtFirstNul(a: Bytes, x: Bytes, b: Bytes, y: Bytes)
    requires 0 !in a && 0 !in b
    requires a + [0] + x == b + [0] + y
    ensures a == b && x == y
  {
    var l, r := a + [0] + x, b + [0] + y;
    assert l[|a|] == 0 && r[|b|] == 0;
    assert |a| == |b|;
    assert a == l[..|a|] && b == r[..|b|] && x == l[|a| + 1..] && y == r[|b| + 1..];
  }

  lemma PartsHaveNoNul(p: Principal)
    requires ValidPrincipal(p)
    ensures 0 !in Utf8(p.issuer) && 0 !in Utf8(p.userId)
  {
    forall c | c in p.issuer ensures c as int != 0 {
      assert c as int == 0 ==> IsControl(c);
    }
    Utf8Without(p.issuer, 0);
    Utf8Without(p.userId, 0);
  }

  /** Two validated principals share an identifier exactly when issuer and user id agree. */
  lemma CanonicalIdIsInjective(p: Principal, q: Principal)
    requires ValidPrincipal(p) && ValidPrincipal(q)
    ensures CanonicalId(p) == CanonicalId(q) <==> p.issuer == q.issuer && p.userId == q.userId
  {
    if CanonicalId(p) == CanonicalId(q) {
      var x, y := Utf8(p.issuer) + [0] + Utf8(p.userId), Utf8(q.issuer) + [0] + Utf8(q.userId);
      assert Base64Url.Encode(x) == CanonicalId(p)[3..] && Base64Url.Encode(y) == CanonicalId(q)[3..];
      Base64Url.EncodeInjective(x, y);
      PartsHaveNoNul(p);
      PartsHaveNoNul(q);
      SplitAtFirstNul(Utf8(p.issuer), Utf8(p.userId), Utf8(q.issuer), Utf8(q.userId));
      Utf8Injective(p.issuer, q.issuer);
      Utf8Injective(p.userId, q.userId);
    }
  }

  lemma SymbolIsIdByte(c: char)
    requires Base64Url.Digit(c) >= 0
    ensures c as int < 0x80 && IsIdByte(c as int)
  {
  }

  /** Texts of URL-safe symbols have as many bytes as symbols, all of them allowed. */
  lemma SymbolsAreIdBytes(text: string)
    requires forall c :: c in text ==> Base64Url.Digit(c) >= 0
    ensures Utf8Len(text) == |text| && forall b :: b in Utf8(text) ==> IsIdByte(b)
  {
    forall c | c in text ensures c as int < 0x80 {
      SymbolIsIdByte(c);
    }
    AsciiBytes(text);
    forall b | b in Utf8(text) ensures IsIdByte(b) {
      var i :| 0 <= i < |text| && Utf8(text)[i] == b;
      SymbolIsIdByte(text[i]);
    }
  }

  lemma CanonicalIdShape(p: Principal)
    ensures |CanonicalId(p)| == 3 + (4 * (Utf8Len(p.issuer) + 1 + Utf8Len(p.userId)) + 2) / 3
    ensures forall c :: c in CanonicalId(p) ==> Base64Url.Digit(c) >= 0
  {
    var identity := Utf8(p.issuer) + [0] + Utf8(p.userId);
    Base64Url.EncodeShape(identity);
    forall c | c in CanonicalId(p) ensures Base64Url.Digit(c) >= 0 {
      if c !in Base64Url.Encode(identity) {
        assert c in "v1_";
      }
    }
  }

  /** The identifier is acceptable to SpiceDB exactly when issuer and user id together take at
      most 764 bytes; the constructors allow up to 768. */
  lemma SpicedbIdExactlyWhenShort(p: Principal)
    ensures IsSpicedbId(CanonicalId(p)) <==> Utf8Len(p.issuer) + Utf8Len(p.userId) <= 764
  {
    CanonicalIdShape(p);
    SymbolsAreIdBytes(CanonicalId(p));
  }

  function Letters(n: nat): (s: string)
    ensures |s| == n && forall c :: c in s ==> c == 'a'
  {
    seq(n, _ => 'a')
  }

  /** The constructors accept principals just above that limit, whose identifiers SpiceDB then refuses. */
  lemma LongPrincipalIsRefused(issuerLength: nat, userLength: nat) returns (p: Principal)
    requires 0 < issuerLength <= MAX_ISSUER_BYTES && 0 < userLength <= MAX_IDENTIFIER_BYTES
    requires issuerLength + userLength > 764
    ensures ValidPrincipal(p) && Utf8Len(p.issuer) == issuerLength && Utf8Len(p.userId) == userLength
    ensures !IsSpicedbId(CanonicalId(p))
  {
    p := Principal(Letters(userLength), Letters(issuerLength), false);
    AsciiBytes(p.issuer);
    AsciiBytes(p.userId);
    assert !IsControl('a') && !IsWhitespace('a');
    SpicedbIdExactlyWhenShort(p);
  }
}
