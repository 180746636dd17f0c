/** Decimal rendering of the store's integer id counter, as `String(n)` does it. */
module Decimal {

  /** The ASCII digit for a value below ten. */
  function DigitChar(d: nat): (c: char)
    requires d < 10
    ensures '0' <= c <= '9'
  {
    ('0' as int + d) as char
  }

  /** The canonical decimal form of `n`: digits only, no leading zero except for `0` itself. */
  function NatToDecimal(n: nat): (s: string)
    ensures 1 <= |s|
    ensures forall i :: 0 <= i < |s| ==> '0' <= s[i] <= '9'
    ensures (s[0] == '0') <==> n == 0
    ensures (|s| == 1) <==> n < 10
    decreases n
  {
    if n < 10 then [DigitChar(n)] else NatToDecimal(n / 10) + [DigitChar(n % 10)]
  }

  /** Different counter values never render to the same id. */
  lemma {:induction false} NatToDecimalInjective(m: nat, n: nat)
    requires m != n
    ensures NatToDecimal(m) != NatToDecimal(n)
    decreases m
  {
    var s, t := NatToDecimal(m), NatToDecimal(n);
    if m < 10 && n < 10 {
      assert s[0] == DigitChar(m) && t[0] == DigitChar(n);
    } else if 10 <= m && 10 <= n {
      if m % 10 != n % 10 {
        assert s[|s| - 1] == DigitChar(m % 10);
        assert t[|t| - 1] == DigitChar(n % 10);
      } else {
        assert m / 10 != n / 10;
        NatToDecimalInjective(m / 10, n / 10);
        assert s[..|s| - 1] == NatToDecimal(m / 10);
        assert t[..|t| - 1] == NatToDecimal(n / 10);
      }
    }
  }
}
