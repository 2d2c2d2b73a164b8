/** Rust strings: Unicode scalar values, their UTF-8 bytes, and their ordering.

    `str` is compared by UTF-8 bytes, which is the same order as comparing scalar
    values lexicographically, so the order is defined on scalar values. */
module Text {
  import opened Common

  // ---------------------------------------------------------------- character classes

  /** `char::is_control`: the Unicode category Cc. */
  predicate IsControl(c: char) {
    var v := c as int;
    v < 0x20 || 0x7F <= v < 0xA0
  }

  /** `char::is_whitespace`: the Unicode property White_Space. */
  predicate IsWhitespace(c: char) {
    var v := c as int;
    || 0x09 <= v <= 0x0D || v == 0x20 || v == 0x85 || v == 0xA0 || v == 0x1680
    || 0x2000 <= v <= 0x200A || v == 0x2028 || v == 0x2029 || v == 0x202F
    || v == 0x205F || v == 0x3000
  }

  predicate HasControl(s: string) {
    exists c :: c in s && IsControl(c)
  }

  /** `u8::to_ascii_lowercase`, on a character. */
  function LowerChar(c: char): char {
    if 'A' <= c <= 'Z' then (c as int + 32) as char else c
  }

  /** `str::to_ascii_lowercase`. */
  function Lower(s: string): (r: string)
    ensures |r| == |s|
  {
    seq(|s|, i requires 0 <= i < |s| => LowerChar(s[i]))
  }

  /** `str::trim`. */
  function Trim(s: string): string {
    Strip(IsWhitespace, s)
  }

  /** A string without the characters of a class at either end. */
  function Strip(f: char -> bool, s: string): string {
    StripEnd(f, StripStart(f, s))
  }

  function StripStart(f: char -> bool, s: string): (r: string)
    ensures |r| <= |s|
  {
    if s != [] && f(s[0]) then StripStart(f, s[1..]) else s
  }

  function StripEnd(f: char -> bool, s: string): (r: string)
    ensures |r| <= |s|
  {
    if s != [] && f(s[|s| - 1]) then StripEnd(f, s[..|s| - 1]) else s
  }

  predicate All(f: char -> bool, s: string) {
    forall c :: c in s ==> f(c)
  }

  lemma {:induction false} StripStartParts(f: char -> bool, s: string) returns (pre: string)
    ensures s == pre + StripStart(f, s) && All(f, pre)
  {
    if s != [] && f(s[0]) {
      var rest := StripStartParts(f, s[1..]);
      pre := [s[0]] + rest;
      assert s == [s[0]] + s[1..];
    } else {
      pre := [];
    }
  }

  lemma {:induction false} StripEndParts(f: char -> bool, s: string) returns (post: string)
    ensures s == StripEnd(f, s) + post && All(f, post)
  {
    if s != [] && f(s[|s| - 1]) {
      var rest := StripEndParts(f, s[..|s| - 1]);
      post := rest + [s[|s| - 1]];
      assert s == s[..|s| - 1] + [s[|s| - 1]];
    } else {
      post := [];
    }
  }

  /** What is stripped belongs to the class. */
  lemma StripParts(f: char -> bool, s: string) returns (pre: string, post: string)
    ensures s == pre + Strip(f, s) + post && All(f, pre) && All(f, post)
  {
    pre := StripStartParts(f, s);
    post := StripEndParts(f, StripStart(f, s));
    assert pre + (Strip(f, s) + post) == pre + Strip(f, s) + post;
  }

  lemma {:induction false} StripStartOf(f: char -> bool, pre: string, rest: string)
    requires All(f, pre) && rest != [] && !f(rest[0])
    ensures StripStart(f, pre + rest) == rest
  {
    if pre == [] {
      assert pre + rest == rest;
    } else {
      assert pre[0] in pre && (pre + rest)[1..] == pre[1..] + rest;
      StripStartOf(f, pre[1..], rest);
    }
  }

  lemma {:induction false} StripEndOf(f: char -> bool, core: string, post: string)
    requires All(f, post) && core != [] && !f(core[|core| - 1])
    ensures StripEnd(f, core + post) == core
  {
    if post == [] {
      assert core + post == core;
    } else {
      var n := |post| - 1;
      assert post[n] in post && (core + post)[..|core + post| - 1] == core + post[..n];
      StripEndOf(f, core, post[..n]);
    }
  }

  /** Characters of the class around a core are stripped, and only they. */
  lemma StripOf(f: char -> bool, pre: string, core: string, post: string)
    requires All(f, pre) && All(f, post) && core != [] && !f(core[0]) && !f(core[|core| - 1])
    ensures Strip(f, pre + core + post) == core
  {
    assert pre + core + post == pre + (core + post);
    StripStartOf(f, pre, core + post);
    StripEndOf(f, core, post);
  }

  // ---------------------------------------------------------------- UTF-8

  function EncodeChar(c: char): (r: Bytes)
    ensures 1 <= |r| <= 4
  {
    var v := c as int;
    if v < 0x80 then [v]
    else if v < 0x800 then [0xC0 + v / 64, 0x80 + v % 64]
    else if v < 0x10000 then [0xE0 + v / 64 / 64, 0x80 + v / 64 % 64, 0x80 + v % 64]
    else [0xF0 + v / 64 / 64 / 64, 0x80 + v / 64 / 64 % 64, 0x80 + v / 64 % 64, 0x80 + v % 64]
  }

  /** `str::as_bytes`. */
  function Utf8(s: string): Bytes {
    if s == [] then [] else EncodeChar(s[0]) + Utf8(s[1..])
  }

  /** `str::len`. */
  function Utf8Len(s: string): nat {
    |Utf8(s)|
  }

  /** The number of bytes announced by a leading byte. */
  function LeadWidth(b: Byte): nat {
    if b < 0x80 then 1 else if b < 0xE0 then 2 else if b < 0xF0 then 3 else 4
  }

  lemma LeadAnnouncesWidth(c: char)
    ensures |EncodeChar(c)| == LeadWidth(EncodeChar(c)[0])
  {
  }

  lemma EncodeCharInjective(c: char, d: char)
    requires EncodeChar(c) == EncodeChar(d)
    ensures c == d
  {
    var v, w := c as int, d as int;
    var e := EncodeChar(c);
    if |e| == 2 {
      SameQuotient(v, w);
    } else if |e| == 3 {
      SameQuotient(v / 64, w / 64);
      SameQuotient(v, w);
    } else if |e| == 4 {
      SameQuotient(v / 64 / 64, w / 64 / 64);
      SameQuotient(v / 64, w / 64);
      SameQuotient(v, w);
    }
    assert v == w;
  }

  lemma SameQuotient(v: int, w: int)
    requires v / 64 == w / 64 && v % 64 == w % 64
    ensures v == w
  {
  }

  /** UTF-8 is a prefix code, so distinct strings have distinct bytes. */
  lemma {:induction false} Utf8Injective(a: string, b: string)
    requires Utf8(a) == Utf8(b)
    ensures a == b
  {
    if a != [] && b != [] {
      var u, v := Utf8(a), Utf8(b);
      var x, y := EncodeChar(a[0]), EncodeChar(b[0]);
      assert u[0] == x[0] && v[0] == y[0];
      LeadAnnouncesWidth(a[0]);
      LeadAnnouncesWidth(b[0]);
      assert x == u[..|x|] && y == v[..|y|];
      EncodeCharInjective(a[0], b[0]);
      assert Utf8(a[1..]) == u[|x|..] && Utf8(b[1..]) == v[|y|..];
      Utf8Injective(a[1..], b[1..]);
      assert a == [a[0]] + a[1..] && b == [b[0]] + b[1..];
    }
  }

  /** An ASCII byte appears only as the encoding of its own character. */
  lemma {:induction false} Utf8Without(s: string, v: Byte)
    requires v < 0x80 && forall c :: c in s ==> c as int != v
    ensures v !in Utf8(s)
  {
    if s != [] {
      assert s[0] in s;
      forall c | c in s[1..] ensures c as int != v {
        assert c in s;
      }
      Utf8Without(s[1..], v);
      assert v !in EncodeChar(s[0]);
    }
  }

  /** The encodings of all characters in a row. */
  function EncodeAll(encode: char -> Bytes, s: string): Bytes {
    if s == [] then [] else encode(s[0]) + EncodeAll(encode, s[1..])
  }

  lemma {:induction false} EncodeAllConcat(encode: char -> Bytes, a: string, b: string)
    ensures EncodeAll(encode, a + b) == EncodeAll(encode, a) + EncodeAll(encode, b)
  {
    if a == [] {
      assert a + b == b;
    } else {
      EncodeAllConcat(encode, a[1..], b);
      assert (a + b)[1..] == a[1..] + b;
    }
  }

  lemma {:induction false} Utf8IsEncodeAll(s: string)
    ensures Utf8(s) == EncodeAll(EncodeChar, s)
  {
    if s != [] {
      Utf8IsEncodeAll(s[1..]);
    }
  }

  lemma Utf8Concat(a: string, b: string)
    ensures Utf8(a + b) == Utf8(a) + Utf8(b)
  {
    Utf8IsEncodeAll(a);
    Utf8IsEncodeAll(b);
    Utf8IsEncodeAll(a + b);
    EncodeAllConcat(EncodeChar, a, b);
  }

  /** ASCII text takes one byte a character. */
  lemma {:induction false} AsciiBytes(s: string)
    requires forall c :: c in s ==> c as int < 0x80
    ensures |Utf8(s)| == |s|
    ensures forall i :: 0 <= i < |s| ==> Utf8(s)[i] == s[i] as int
  {
    if s != [] {
      assert s[0] in s;
      forall c | c in s[1..] ensures c as int < 0x80 {
        assert c in s;
      }
      AsciiBytes(s[1..]);
    }
  }

  // ---------------------------------------------------------------- ordering

  predicate Less(a: string, b: string) {
    b != [] && (a == [] || a[0] < b[0] || (a[0] == b[0] && Less(a[1..], b[1..])))
  }

  lemma LessIrreflexive(a: string)
    ensures !Less(a, a)
  {
  }

  lemma {:induction false} LessTransitive(a: string, b: string, c: string)
    requires Less(a, b) && Less(b, c)
    ensures Less(a, c)
  {
    if a != [] && a[0] == b[0] == c[0] {
      LessTransitive(a[1..], b[1..], c[1..]);
    }
  }

  lemma {:induction false} LessTotal(a: string, b: string)
    ensures a == b || Less(a, b) || Less(b, a)
  {
    if a != [] && b != [] && a[0] == b[0] {
      LessTotal(a[1..], b[1..]);
      assert a == [a[0]] + a[1..] && b == [b[0]] + b[1..];
    }
  }

  predicate Sorted(s: seq<string>) {
    forall i, j :: 0 <= i < j < |s| ==> s[i] == s[j] || Less(s[i], s[j])
  }

  predicate StrictlySorted(s: seq<string>) {
    forall i, j :: 0 <= i < j < |s| ==> Less(s[i], s[j])
  }

  ghost function Elements<T>(s: seq<T>): set<T> {
    set x | x in s
  }

  /** A strictly sorted list is determined by its elements. */
  lemma {:induction false} StrictlySortedUnique(a: seq<string>, b: seq<string>)
    requires StrictlySorted(a) && StrictlySorted(b)
    requires Elements(a) == Elements(b)
    ensures a == b
  {
    assert a != [] ==> a[0] in Elements(a);
    assert b != [] ==> b[0] in Elements(b);
    if a != [] {
      assert a[0] in Elements(b) && b[0] in Elements(a);
      var i :| 0 <= i < |b| && b[i] == a[0];
      var j :| 0 <= j < |a| && a[j] == b[0];
      if a[0] != b[0] {
        LessTransitive(a[0], b[0], a[0]);
        LessIrreflexive(a[0]);
      }
      assert Elements(a[1..]) == Elements(a) - {a[0]} by { TailElements(a); }
      assert Elements(b[1..]) == Elements(b) - {b[0]} by { TailElements(b); }
      StrictlySortedUnique(a[1..], b[1..]);
      assert a == [a[0]] + a[1..] && b == [b[0]] + b[1..];
    }
  }

  lemma TailElements(a: seq<string>)
    requires a != [] && StrictlySorted(a)
    ensures Elements(a[1..]) == Elements(a) - {a[0]}
  {
    assert a == [a[0]] + a[1..];
    LessIrreflexive(a[0]);
    assert a[0] !in a[1..];
  }

  /** The iteration order of a `BTreeSet<String>`. */
  ghost function Listing(s: set<string>): (r: seq<string>)
    ensures StrictlySorted(r)
    ensures Elements(r) == s
  {
    if s == {} then [] else
      LeastExists(s);
      var m :| IsLeast(m, s);
      var rest := Listing(s - {m});
      assert forall x :: x in rest ==> x in Elements(rest);
      assert forall x :: x in Elements(rest) ==> x in rest;
      assert forall x :: x in [m] + rest <==> x == m || x in rest;
      [m] + rest
  }

  ghost predicate IsLeast(m: string, s: set<string>) {
    m in s && forall x :: x in s ==> x == m || Less(m, x)
  }

  lemma {:induction false} LeastExists(s: set<string>)
    requires s != {}
    ensures exists m :: IsLeast(m, s)
    decreases |s|
  {
    var a :| a in s;
    if s == {a} {
      assert IsLeast(a, s);
    } else {
      LeastExists(s - {a});
      var b :| IsLeast(b, s - {a});
      LessTotal(a, b);
      if Less(a, b) {
        forall x | x in s ensures x == a || Less(a, x) {
          if x != a && x != b {
            LessTransitive(a, b, x);
          }
        }
        assert IsLeast(a, s);
      } else {
        assert IsLeast(b, s);
      }
    }
  }
}
