/** Numbers as printf writes them. */
module Numerals {

  const DIGITS := "0123456789ABCDEF"

  /** The digits of n in a base up to 16, without leading zeros. */
  function Digits(n: nat, base: nat): (s: string)
    requires 2 <= base <= 16
    ensures |s| >= 1
  {
    if n < base then [DIGITS[n]] else
      QuotientSmaller(n, base);
      Digits(n / base, base) + [DIGITS[n % base]]
  }

  lemma QuotientSmaller(n: nat, base: nat)
    requires 2 <= base <= n
    ensures n / base < n && n == n / base * base + n % base
  {
    var k := n / base;
    assert n == base * k + n % base;
    assert base * k == 2 * k + (base - 2) * k;
    NatProduct(base - 2, k);
  }

  lemma NatProduct(a: nat, b: nat)
    ensures a * b >= 0
  {
  }

  /** %d */
  function Decimal(n: int): string {
    if n < 0 then "-" + Digits(-n, 10) else Digits(n, 10)
  }

  /** %a */
  function Hex(n: nat): string {
    Digits(n, 16)
  }
}
