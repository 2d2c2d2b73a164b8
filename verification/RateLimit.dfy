/** Rate-limit buckets: the key under which attempts are counted, and the reported waiting time. */
module RateLimit {
  import opened Common
  import opened Text

  const I64_MAX: nat := 0x7FFF_FFFF_FFFF_FFFF

  /** `u64::to_be_bytes`, of the low bytes of a number. */
  function BigEndian(n: nat, width: nat): (b: Bytes)
    ensures |b| == width
  {
    if width == 0 then [] else BigEndian(n / 256, width - 1) + [n % 256]
  }

  function Power256(width: nat): nat {
    if width == 0 then 1 else 256 * Power256(width - 1)
  }

  lemma {:induction false} BigEndianInjective(a: nat, b: nat, width: nat)
    requires a < Power256(width) && b < Power256(width)
    requires BigEndian(a, width) == BigEndian(b, width)
    ensures a == b
  {
    if width > 0 {
      var x, y := BigEndian(a, width), BigEndian(b, width);
      assert x[..width - 1] == BigEndian(a / 256, width - 1) && y[..width - 1] == BigEndian(b / 256, width - 1);
      assert x[width - 1] == a % 256 && y[width - 1] == b % 256;
      BigEndianInjective(a / 256, b / 256, width - 1);
    }
  }

  lemma WordSize()
    ensures Power256(8) == U64_MAX + 1
  {
    assert Power256(4) == 0x1_0000_0000;
    assert Power256(8) == 256 * (256 * (256 * (256 * Power256(4))));
  }

  /** What is fed to the digest: each part behind its length. */
  function Preimage(scope: string, subject: string): Bytes {
    BigEndian(Utf8Len(scope), 8) + Utf8(scope) + BigEndian(Utf8Len(subject), 8) + Utf8(subject)
  }

  function HexDigit(v: int): char
    requires 0 <= v < 16
  {
    if v < 10 then (v + 48) as char else (v + 87) as char
  }

  /** Two lower-case hexadecimal digits for each byte. */
  function Hex(b: Bytes): (s: string)
    ensures |s| == 2 * |b|
  {
    if b == [] then [] else Hex(b[..|b| - 1]) + [HexDigit(b[|b| - 1] / 16), HexDigit(b[|b| - 1] % 16)]
  }

  const DIGITS := "0123456789abcdef"

  /** Each byte is printed as its two lower-case digits, the high one first. */
  lemma {:induction false} HexExactly(b: Bytes, i: nat)
    requires i < |b|
    ensures Hex(b)[2 * i] == DIGITS[b[i] / 16] && Hex(b)[2 * i + 1] == DIGITS[b[i] % 16]
  {
    if i < |b| - 1 {
      HexExactly(b[..|b| - 1], i);
    }
  }

  /** `bucket_key`, with SHA-256 as a parameter. */
  method BucketKey(scope: string, subject: string, sha256: Bytes -> Bytes) returns (key: string)
    ensures key == KeyOf(scope, subject, sha256)
  {
    var fed: Bytes := [];
    fed := fed + BigEndian(Utf8Len(scope), 8);
    fed := fed + Utf8(scope);
    fed := fed + BigEndian(Utf8Len(subject), 8);
    fed := fed + Utf8(subject);
    assert fed == Preimage(scope, subject);
    var digest := sha256(fed);
    key := scope;
    key := key + ":";
    ghost var start := key;
    assert start + [] == start;
    for i := 0 to |digest|
      invariant key == start + Hex(digest[..i])
    {
      HexGrows(digest, i);
      assert start + Hex(digest[..i]) + [HexDigit(digest[i] / 16), HexDigit(digest[i] % 16)] == start + Hex(digest[..i + 1]);
      key := key + [HexDigit(digest[i] / 16), HexDigit(digest[i] % 16)];
    }
    assert digest[..|digest|] == digest;
  }

  lemma HexGrows(digest: Bytes, i: nat)
    requires i < |digest|
    ensures Hex(digest[..i + 1]) == Hex(digest[..i]) + [HexDigit(digest[i] / 16), HexDigit(digest[i] % 16)]
  {
    assert digest[..i + 1][..i] == digest[..i];
  }

  function KeyOf(scope: string, subject: string, sha256: Bytes -> Bytes): string {
    scope + ":" + Hex(sha256(Preimage(scope, subject)))
  }

  lemma DigitsDetermineByte(x: Byte, y: Byte)
    requires HexDigit(x / 16) == HexDigit(y / 16) && HexDigit(x % 16) == HexDigit(y % 16)
    ensures x == y
  {
  }

  lemma {:induction false} HexInjective(a: Bytes, b: Bytes)
    requires Hex(a) == Hex(b)
    ensures a == b
  {
    assert |a| == |b|;
    if a != [] {
      var n := |a| - 1;
      var x, y := Hex(a), Hex(b);
      assert x[..2 * n] == Hex(a[..n]) && y[..2 * n] == Hex(b[..n]);
      HexInjective(a[..n], b[..n]);
      assert x[2 * n] == HexDigit(a[n] / 16) && y[2 * n] == HexDigit(b[n] / 16);
      assert x[2 * n + 1] == HexDigit(a[n] % 16) && y[2 * n + 1] == HexDigit(b[n] % 16);
      DigitsDetermineByte(a[n], b[n]);
      assert a == a[..n] + [a[n]] && b == b[..n] + [b[n]];
    }
  }

  /** Distinct pairs have distinct preimages: the first length says where the scope ends. Lengths are
      those of Rust strings, which fit in 64 bits. */
  lemma PreimageInjective(scope: string, subject: string, scope': string, subject': string)
    requires Utf8Len(scope) <= U64_MAX && Utf8Len(scope') <= U64_MAX
    requires Preimage(scope, subject) == Preimage(scope', subject')
    ensures scope == scope' && subject == subject'
  {
    var p := Preimage(scope, subject);
    CutPreimage(BigEndian(Utf8Len(scope), 8), Utf8(scope), BigEndian(Utf8Len(subject), 8), Utf8(subject), p);
    CutPreimage(BigEndian(Utf8Len(scope'), 8), Utf8(scope'), BigEndian(Utf8Len(subject'), 8), Utf8(subject'), p);
    WordSize();
    BigEndianInjective(Utf8Len(scope), Utf8Len(scope'), 8);
    Utf8Injective(scope, scope');
    Utf8Injective(subject, subject');
  }

  lemma CutPreimage(m: Bytes, x: Bytes, n: Bytes, y: Bytes, p: Bytes)
    requires p == m + x + n + y && |m| == 8 && |n| == 8
    ensures p[..8] == m && p[8..8 + |x|] == x && p[16 + |x|..] == y
  {
  }

  /** A collision of the digest between the inputs of two pairs. */
  predicate Collide(scope: string, subject: string, scope': string, subject': string, sha256: Bytes -> Bytes) {
    && Preimage(scope, subject) != Preimage(scope', subject')
    && sha256(Preimage(scope, subject)) == sha256(Preimage(scope', subject'))
  }

  /** Two pairs share a bucket exactly when they are the same pair, or have the same scope and their two
      inputs are a collision of the 32-byte digest. */
  lemma BucketsAreSeparate(scope: string, subject: string, scope': string, subject': string, sha256: Bytes -> Bytes)
    requires forall a :: |sha256(a)| == 32
    requires Utf8Len(scope) <= U64_MAX && Utf8Len(scope') <= U64_MAX
    ensures KeyOf(scope, subject, sha256) == KeyOf(scope', subject', sha256) <==>
            || (scope == scope' && subject == subject')
            || (scope == scope' && Collide(scope, subject, scope', subject', sha256))
  {
    if KeyOf(scope, subject, sha256) == KeyOf(scope', subject', sha256) {
      var k, l := KeyOf(scope, subject, sha256), KeyOf(scope', subject', sha256);
      var d, e := sha256(Preimage(scope, subject)), sha256(Preimage(scope', subject'));
      assert k[|k| - 64..] == Hex(d) && l[|l| - 64..] == Hex(e);
      assert k[..|k| - 65] == scope && l[..|l| - 65] == scope';
      HexInjective(d, e);
      if Preimage(scope, subject) == Preimage(scope', subject') {
        PreimageInjective(scope, subject, scope', subject');
      }
    }
  }

  // ---------------------------------------------------------------- retry-after

  /** The waiting time in whole seconds from the signed milliseconds of the database row; a negative
      value is an invalid row. */
  function RetryAfterSeconds(retryAfterMs: int): (r: Option<nat>)
    ensures r.None? <==> retryAfterMs < 0
  {
    if retryAfterMs < 0 then None else Some(SaturatingAdd(retryAfterMs, 999) / 1000)
  }

  /** It is the least whole number of seconds that covers the wait, for every signed 64-bit value. */
  lemma RetryAfterIsLeastCover(retryAfterMs: int)
    requires 0 <= retryAfterMs <= I64_MAX
    ensures var seconds := RetryAfterSeconds(retryAfterMs).value;
            && retryAfterMs <= 1000 * seconds
            && (forall s: nat :: retryAfterMs <= 1000 * s ==> seconds <= s)
            && seconds <= U64_MAX
  {
    var seconds := RetryAfterSeconds(retryAfterMs).value;
    assert seconds == (retryAfterMs + 999) / 1000;
    forall s: nat | retryAfterMs <= 1000 * s ensures seconds <= s {
    }
  }
}
