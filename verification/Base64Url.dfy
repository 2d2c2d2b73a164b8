/** URL-safe base64 without padding (section 5 of RFC 4648), strict as the
    `URL_SAFE_NO_PAD` engine is: no padding character, no impossible length and no
    stray bits after the last whole byte. */
module Base64Url {
  import opened Common

  function Symbol(v: int): (c: char)
    requires 0 <= v < 64
  {
    if v < 26 then (v + 65) as char
    else if v < 52 then (v + 71) as char
    else if v < 62 then (v - 4) as char
    else if v == 62 then '-'
    else '_'
  }

  /** The value of a symbol, or -1 for a character outside the alphabet. */
  function Digit(c: char): (v: int)
    ensures -1 <= v < 64
  {
    if 'A' <= c <= 'Z' then c as int - 65
    else if 'a' <= c <= 'z' then c as int - 71
    else if '0' <= c <= '9' then c as int + 4
    else if c == '-' then 62
    else if c == '_' then 63
    else -1
  }

  lemma DigitOfSymbol(v: int)
    requires 0 <= v < 64
    ensures Digit(Symbol(v)) == v
  {
  }

  lemma SymbolOfDigit(c: char)
    requires Digit(c) >= 0
    ensures Symbol(Digit(c)) == c
  {
  }

  /** The six-bit digits of a group of one to three bytes. */
  function Split(b: Bytes): (d: seq<int>)
    requires 1 <= |b| <= 3
    ensures |d| == |b| + 1
    ensures forall i :: 0 <= i < |d| ==> 0 <= d[i] < 64
  {
    if |b| == 1 then
      [b[0] / 4, b[0] % 4 * 16]
    else if |b| == 2 then
      [b[0] / 4, b[0] % 4 * 16 + b[1] / 16, b[1] % 16 * 4]
    else
      [b[0] / 4, b[0] % 4 * 16 + b[1] / 16, b[1] % 16 * 4 + b[2] / 64, b[2] % 64]
  }

  /** The bytes of a group of two to four six-bit digits, unless stray bits remain. */
  function Join(d: seq<int>): (b: Option<Bytes>)
    requires 2 <= |d| <= 4
    requires forall i :: 0 <= i < |d| ==> 0 <= d[i] < 64
    ensures b.Some? ==> |b.value| == |d| - 1
  {
    var b0 := d[0] * 4 + d[1] / 16;
    if |d| == 2 then
      if d[1] % 16 == 0 then Some([b0]) else None
    else
      var b1 := d[1] % 16 * 16 + d[2] / 4;
      if |d| == 3 then
        if d[2] % 4 == 0 then Some([b0, b1]) else None
      else
        Some([b0, b1, d[2] % 4 * 64 + d[3]])
  }

  lemma JoinOfSplit(b: Bytes)
    requires 1 <= |b| <= 3
    ensures Join(Split(b)) == Some(b)
  {
    var d := Split(b);
    FirstByte(b[0], if |b| == 1 then 0 else b[1]);
    if |b| == 1 {
      assert b == [b[0]];
      assert Join(d) == Some([b[0]]);
    } else {
      SecondByte(b[0], b[1], if |b| == 2 then 0 else b[2]);
      if |b| == 2 {
        assert b == [b[0], b[1]];
        assert Join(d) == Some([b[0], b[1]]);
      } else {
        ThirdByte(b[1], b[2]);
        assert b == [b[0], b[1], b[2]];
        assert Join(d) == Some([b[0], b[1], b[2]]);
      }
    }
  }

  lemma FirstByte(x: Byte, y: Byte)
    ensures x / 4 * 4 + (x % 4 * 16 + y / 16) / 16 == x
  {
  }

  lemma SecondByte(x: Byte, y: Byte, z: Byte)
    ensures (x % 4 * 16 + y / 16) % 16 * 16 + (y % 16 * 4 + z / 64) / 4 == y
  {
  }

  lemma ThirdByte(y: Byte, z: Byte)
    ensures (y % 16 * 4 + z / 64) % 4 * 64 + z % 64 == z
  {
  }

  lemma SplitOfJoin(d: seq<int>)
    requires 2 <= |d| <= 4
    requires forall i :: 0 <= i < |d| ==> 0 <= d[i] < 64
    requires Join(d).Some?
    ensures Split(Join(d).value) == d
  {
    var b := Join(d).value;
    HighBits(d[0], d[1]);
    if |d| == 2 {
      assert b == [d[0] * 4 + d[1] / 16];
      assert Split(b) == [d[0], d[1]];
    } else {
      MiddleBits(d[1], d[2]);
      if |d| == 3 {
        assert b == [d[0] * 4 + d[1] / 16, d[1] % 16 * 16 + d[2] / 4];
        assert Split(b) == [d[0], d[1], d[2]];
      } else {
        LowBits(d[2], d[3]);
        assert b == [d[0] * 4 + d[1] / 16, d[1] % 16 * 16 + d[2] / 4, d[2] % 4 * 64 + d[3]];
        assert Split(b) == [d[0], d[1], d[2], d[3]];
      }
    }
  }

  lemma HighBits(x: int, y: int)
    requires 0 <= x < 64 && 0 <= y < 64
    ensures (x * 4 + y / 16) / 4 == x && (x * 4 + y / 16) % 4 == y / 16
  {
  }

  lemma MiddleBits(y: int, z: int)
    requires 0 <= y < 64 && 0 <= z < 64
    ensures (y % 16 * 16 + z / 4) / 16 == y % 16 && (y % 16 * 16 + z / 4) % 16 == z / 4
  {
  }

  lemma LowBits(z: int, w: int)
    requires 0 <= z < 64 && 0 <= w < 64
    ensures (z % 4 * 64 + w) / 64 == z % 4 && (z % 4 * 64 + w) % 64 == w
  {
  }

  function EncodeGroup(b: Bytes): (r: string)
    requires 1 <= |b| <= 3
    ensures |r| == |b| + 1
  {
    var d := Split(b);
    seq(|d|, i requires 0 <= i < |d| => Symbol(d[i]))
  }

  function Encode(b: Bytes): (r: string) {
    if b == [] then []
    else if |b| <= 3 then EncodeGroup(b)
    else EncodeGroup(b[..3]) + Encode(b[3..])
  }

  function Digits(s: string): (d: seq<int>)
    ensures |d| == |s|
    ensures forall i :: 0 <= i < |s| ==> d[i] == Digit(s[i])
  {
    seq(|s|, i requires 0 <= i < |s| => Digit(s[i]))
  }

  function DecodeGroup(s: string): (r: Option<Bytes>)
    requires 2 <= |s| <= 4
    ensures r.Some? ==> |r.value| == |s| - 1
  {
    if forall i :: 0 <= i < |s| ==> Digit(s[i]) >= 0 then Join(Digits(s)) else None
  }

  function Decode(s: string): (r: Option<Bytes>) {
    if s == [] then Some([])
    else if |s| == 1 then None
    else if |s| <= 4 then DecodeGroup(s)
    else match DecodeGroup(s[..4])
      case None => None
      case Some(head) =>
        match Decode(s[4..])
        case None => None
        case Some(tail) => Some(head + tail)
  }

  lemma DecodeGroupOfEncodeGroup(b: Bytes)
    requires 1 <= |b| <= 3
    ensures DecodeGroup(EncodeGroup(b)) == Some(b)
  {
    var d := Split(b);
    forall i | 0 <= i < |d| ensures Digit(Symbol(d[i])) == d[i] {
      DigitOfSymbol(d[i]);
    }
    assert Digits(EncodeGroup(b)) == d;
    JoinOfSplit(b);
  }

  lemma EncodeGroupOfDecodeGroup(s: string)
    requires 2 <= |s| <= 4
    requires DecodeGroup(s).Some?
    ensures EncodeGroup(DecodeGroup(s).value) == s
  {
    forall i | 0 <= i < |s| ensures Symbol(Digit(s[i])) == s[i] {
      SymbolOfDigit(s[i]);
    }
    SplitOfJoin(Digits(s));
  }

  /** Decoding undoes encoding, for every byte string. */
  lemma {:induction false} DecodeOfEncode(b: Bytes)
    ensures Decode(Encode(b)) == Some(b)
  {
    if b == [] {
    } else if |b| <= 3 {
      DecodeGroupOfEncodeGroup(b);
    } else {
      DecodeGroupOfEncodeGroup(b[..3]);
      DecodeOfEncode(b[3..]);
      EncodeNonEmpty(b[3..]);
      var s := Encode(b);
      assert s[..4] == EncodeGroup(b[..3]) && s[4..] == Encode(b[3..]);
      assert b == b[..3] + b[3..];
    }
  }

  lemma EncodeNonEmpty(b: Bytes)
    ensures b != [] ==> |Encode(b)| >= 2
  {
  }

  /** Every accepted text is the one encoding of its bytes. */
  lemma {:induction false} EncodeOfDecode(s: string)
    requires Decode(s).Some?
    ensures Encode(Decode(s).value) == s
  {
    if s == [] {
    } else if |s| <= 4 {
      EncodeGroupOfDecodeGroup(s);
    } else {
      EncodeGroupOfDecodeGroup(s[..4]);
      EncodeOfDecode(s[4..]);
      var head, tail := DecodeGroup(s[..4]).value, Decode(s[4..]).value;
      assert s == s[..4] + s[4..];
      assert (head + tail)[..3] == head && (head + tail)[3..] == tail;
    }
  }

  lemma EncodeInjective(a: Bytes, b: Bytes)
    requires Encode(a) == Encode(b)
    ensures a == b
  {
    DecodeOfEncode(a);
    DecodeOfEncode(b);
  }

  /** The text has one symbol per started group of six bits, all from the alphabet. */
  lemma {:induction false} EncodeShape(b: Bytes)
    ensures |Encode(b)| == (4 * |b| + 2) / 3
    ensures forall c :: c in Encode(b) ==> Digit(c) >= 0
  {
    if b != [] {
      var head := if |b| <= 3 then b else b[..3];
      forall i | 0 <= i < |head| + 1 ensures Digit(EncodeGroup(head)[i]) >= 0 {
        DigitOfSymbol(Split(head)[i]);
      }
    }
    if |b| > 3 {
      EncodeShape(b[3..]);
    }
  }
}
