/**
 * Decimal formatting of a non-negative integer, as Python's f-string `{i}`
 * renders it, together with its inverse.  The round trip is what makes the
 * generated texts and ids pairwise distinct.
 */
module Decimal {

  predicate IsDigit(c: char) {
    '0' <= c <= '9'
  }

  predicate AllDigits(s: string) {
    forall i :: 0 <= i < |s| ==> IsDigit(s[i])
  }

  function DigitChar(d: nat): (c: char)
    requires d < 10
    ensures IsDigit(c) && c as int - '0' as int == d
  {
    ('0' as int + d) as char
  }

  /** `str(n)` for n >= 0: at least one digit, no sign. */
  function FromNat(n: nat): (s: string)
    ensures |s| > 0 && AllDigits(s)
    decreases n
  {
    if n < 10 then [DigitChar(n)] else FromNat(n / 10) + [DigitChar(n % 10)]
  }

  /** `int(s)` for a string of decimal digits. */
  function ToNat(s: string): nat
    requires AllDigits(s)
    decreases |s|
  {
    if s == [] then 0 else 10 * ToNat(s[..|s| - 1]) + (s[|s| - 1] as int - '0' as int)
  }

  lemma {:induction false} ToNatFromNat(n: nat)
    ensures ToNat(FromNat(n)) == n
    decreases n
  {
    if n >= 10 {
      var s := FromNat(n);
      assert s[..|s| - 1] == FromNat(n / 10);
      ToNatFromNat(n / 10);
    }
  }

  lemma FromNatInjective(a: nat, b: nat)
    requires FromNat(a) == FromNat(b)
    ensures a == b
  {
    ToNatFromNat(a);
    ToNatFromNat(b);
  }

  /** Two texts made from the same template with different numbers differ. */
  lemma TemplateInjective(prefix: string, suffix: string, a: nat, b: nat)
    requires prefix + FromNat(a) + suffix == prefix + FromNat(b) + suffix
    ensures a == b
  {
    var s := prefix + FromNat(a) + suffix;
    var t := prefix + FromNat(b) + suffix;
    assert |FromNat(a)| == |FromNat(b)|;
    assert s[|prefix|..|s| - |suffix|] == FromNat(a);
    assert t[|prefix|..|t| - |suffix|] == FromNat(b);
    FromNatInjective(a, b);
  }
}
