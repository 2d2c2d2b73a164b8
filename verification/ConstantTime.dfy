/** The bearer-token comparison of the Cedar decision point, which looks at every byte of both sides.
    Machine words are natural numbers; neither operator can exceed the width of its operands. */
module ConstantTime {
  import opened Common

  /** Bitwise exclusive or. */
  function Xor(a: nat, b: nat): nat {
    if a == 0 && b == 0 then 0
    else (if a % 2 == b % 2 then 0 else 1) + 2 * Xor(a / 2, b / 2)
  }

  /** Bitwise or. */
  function Or(a: nat, b: nat): nat {
    if a == 0 && b == 0 then 0
    else (if a % 2 == 1 || b % 2 == 1 then 1 else 0) + 2 * Or(a / 2, b / 2)
  }

  lemma {:induction false} XorIsZeroExactlyWhenEqual(a: nat, b: nat)
    ensures Xor(a, b) == 0 <==> a == b
  {
    if a != 0 || b != 0 {
      XorIsZeroExactlyWhenEqual(a / 2, b / 2);
    }
  }

  lemma {:induction false} OrIsZeroExactlyWhenBothAre(a: nat, b: nat)
    ensures Or(a, b) == 0 <==> a == 0 && b == 0
  {
    if a != 0 || b != 0 {
      OrIsZeroExactlyWhenBothAre(a / 2, b / 2);
    }
  }

  /** `get(index).copied().unwrap_or_default()`. */
  function ByteAt(s: Bytes, i: nat): Byte {
    if i < |s| then s[i] else 0
  }

  /** `constant_time_eq`: true exactly when the two byte strings are equal, whatever their lengths. The
      number of bytes compared depends on the lengths only: it is the greater one. */
  method ConstantTimeEq(actual: Bytes, expected: Bytes) returns (equal: bool, ghost compared: nat)
    ensures equal <==> actual == expected
    ensures |actual| <= compared && |expected| <= compared && compared in {|actual|, |expected|}
  {
    var difference := Xor(|actual|, |expected|);
    XorIsZeroExactlyWhenEqual(|actual|, |expected|);
    var maximum := if |actual| >= |expected| then |actual| else |expected|;
    compared := 0;
    for index := 0 to maximum
      invariant compared == index
      invariant difference == 0 <==>
                |actual| == |expected| && forall i :: 0 <= i < index ==> ByteAt(actual, i) == ByteAt(expected, i)
    {
      var left, right := ByteAt(actual, index), ByteAt(expected, index);
      XorIsZeroExactlyWhenEqual(left, right);
      OrIsZeroExactlyWhenBothAre(difference, Xor(left, right));
      difference, compared := Or(difference, Xor(left, right)), compared + 1;
    }
    equal := difference == 0;
    if equal {
      forall i | 0 <= i < |actual| ensures actual[i] == expected[i] {
        assert ByteAt(actual, i) == ByteAt(expected, i);
      }
    }
  }
}
