/** Python's `str(n)` of a non-negative integer, which both the identity text and the proxy names contain. */
module Decimals {

  function Digit(d: nat): (c: char)
    requires d < 10
    ensures '0' <= c <= '9'
  {
    '0' + d as char
  }

  function Decimal(n: nat): (s: string)
    ensures s != "" && forall i :: 0 <= i < |s| ==> '0' <= s[i] <= '9'
  {
    if n < 10 then [Digit(n)] else Decimal(n / 10) + [Digit(n % 10)]
  }

  /** The number that a text of digits denotes. */
  function Number(s: string): nat
    requires forall i :: 0 <= i < |s| ==> '0' <= s[i] <= '9'
  {
    if s == "" then 0 else 10 * Number(s[..|s| - 1]) + (s[|s| - 1] - '0') as nat
  }

  /** The decimals are injective: the number can be read back. */
  lemma {:induction false} NumberOfDecimal(n: nat)
    ensures Number(Decimal(n)) == n
  {
    if n < 10 {
      assert Decimal(n)[..0] == "";
    } else {
      NumberOfDecimal(n / 10);
      assert Decimal(n)[..|Decimal(n)| - 1] == Decimal(n / 10);
    }
  }
}
