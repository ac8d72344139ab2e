/** Decimal rendering of counts, as a template literal prints a non-negative
    integer: digits without leading zeros. */
module Decimal {

  predicate IsDigit(c: char) {
    '0' <= c <= '9'
  }

  predicate AllDigits(s: string) {
    forall i :: 0 <= i < |s| ==> IsDigit(s[i])
  }

  /** The decimal digits of `n`, most significant first. */
  function NatToString(n: nat): (r: string)
    ensures |r| >= 1 && AllDigits(r)
    ensures |r| > 1 ==> r[0] != '0'
  {
    var last := ['0' + (n % 10) as char];
    if n < 10 then last else NatToString(n / 10) + last
  }

  /** The number a string of decimal digits denotes. */
  function StringToNat(s: string): nat
    requires AllDigits(s)
  {
    if |s| == 0 then 0
    else StringToNat(s[..|s| - 1]) * 10 + (s[|s| - 1] - '0') as nat
  }

  /** Reading back a rendered number gives the number. */
  lemma {:induction false} StringToNatInverts(n: nat)
    ensures StringToNat(NatToString(n)) == n
  {
    var r := NatToString(n);
    if n >= 10 {
      StringToNatInverts(n / 10);
      assert r[..|r| - 1] == NatToString(n / 10);
    }
  }
}
