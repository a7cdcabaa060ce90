/** Python's str() of a natural number, which the caches use to turn numeric ids into keys. */
module Decimal {

  const DIGITS := "0123456789"

  function Text(n: nat): (s: string)
    ensures s != []
  {
    if n < 10 then [DIGITS[n]] else Text(n / 10) + [DIGITS[n % 10]]
  }

  lemma {:induction false} DigitsDiffer(a: nat, b: nat)
    requires a < 10 && b < 10 && DIGITS[a] == DIGITS[b]
    ensures a == b
  {
    assert DIGITS == ['0', '1', '2', '3', '4', '5', '6', '7', '8', '9'];
  }

  /** Different numbers have different texts, so distinct ids stay distinct as keys. */
  lemma {:induction false} TextIsInjective(m: nat, n: nat)
    requires Text(m) == Text(n)
    ensures m == n
  {
    DigitsDiffer(m % 10, n % 10) by {
      assert Text(m)[|Text(m)| - 1] == DIGITS[m % 10];
      assert Text(n)[|Text(n)| - 1] == DIGITS[n % 10];
    }
    if m >= 10 && n >= 10 {
      assert Text(m)[..|Text(m)| - 1] == Text(m / 10);
      assert Text(n)[..|Text(n)| - 1] == Text(n / 10);
      TextIsInjective(m / 10, n / 10);
    }
  }
}
