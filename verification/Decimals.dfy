/** Numbers as text. */
module Decimals {
  /** Decimal digits of a number. */
  function Decimal(n: nat): string {
    if n < 10 then [Digit(n)] else Decimal(n / 10) + [Digit(n % 10)]
  }

  function Digit(n: nat): char
    requires n < 10
  {
    "0123456789"[n]
  }

  function Value(c: char): nat {
    if '0' <= c <= '9' then c as int - '0' as int else 0
  }

  function Parse(text: string): nat {
    if text == [] then 0 else 10 * Parse(text[..|text| - 1]) + Value(text[|text| - 1])
  }

  lemma DigitValue(n: nat)
    requires n < 10
    ensures Value(Digit(n)) == n && '0' <= Digit(n) <= '9'
  {
  }

  /** Reading a number's digits gives the number back, and they are digits indeed. */
  lemma {:induction false} DecimalRoundTrip(n: nat)
    ensures Parse(Decimal(n)) == n
    ensures Decimal(n) != [] && forall i :: 0 <= i < |Decimal(n)| ==> '0' <= Decimal(n)[i] <= '9'
  {
    DigitValue(n % 10);
    if n < 10 {
      assert Decimal(n)[..0] == [];
    } else {
      DecimalRoundTrip(n / 10);
      assert Decimal(n)[..|Decimal(n)| - 1] == Decimal(n / 10);
    }
  }
}
