/** Unsigned decimal numerals, as they appear in Content-Length fields. */
module Decimal {
  import opened Text

  predicate IsDigit(c: char) {
    '0' <= c <= '9'
  }

  predicate AllDigits(s: string) {
    forall i :: 0 <= i < |s| ==> IsDigit(s[i])
  }

  function Value(s: string): nat
    requires AllDigits(s)
  {
    if s == [] then 0 else 10 * Value(s[..|s| - 1]) + (s[|s| - 1] as int - '0' as int)
  }

  /** The numeral of a number, without leading zeros. */
  function Print(n: nat): (s: string)
    ensures s != [] && AllDigits(s)
  {
    var last := (n % 10 + '0' as int) as char;
    if n < 10 then [last] else Print(n / 10) + [last]
  }

  /** Reading undoes printing. */
  lemma {:induction false} ValueOfPrint(n: nat)
    ensures Value(Print(n)) == n
  {
    if n >= 10 {
      ValueOfPrint(n / 10);
      assert Print(n)[..|Print(n)| - 1] == Print(n / 10);
    }
  }

  /** Digits survive trimming. */
  lemma TrimOfDigits(s: string)
    requires AllDigits(s)
    ensures Trim(s) == s
  {
  }
}
