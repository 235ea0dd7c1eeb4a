/** Decimal text of natural numbers. */
module Decimals {
  import opened Text

  function Digit(n: nat): char
    requires n < 10
  {
    '0' + n as char
  }

  function Decimal(n: nat): string {
    if n < 10 then [Digit(n)] else Decimal(n / 10) + [Digit(n % 10)]
  }

  predicate AllDigits(s: string) {
    forall i :: 0 <= i < |s| ==> IsDigit(s[i])
  }

  function ValueOf(s: string): nat
    requires AllDigits(s)
  {
    if s == "" then 0 else 10 * ValueOf(s[..|s| - 1]) + (s[|s| - 1] as int - '0' as int)
  }

  lemma {:induction false} ValueOfDecimal(n: nat)
    ensures Decimal(n) != "" && AllDigits(Decimal(n)) && ValueOf(Decimal(n)) == n
  {
    if n >= 10 {
      ValueOfDecimal(n / 10);
      assert Decimal(n)[..|Decimal(n)| - 1] == Decimal(n / 10);
    } else {
      assert [Digit(n)][..0] == "";
    }
  }
}
