/** Python's `str(n)` and `'{}'.format(n)` for a natural number. */
module Decimal {

  function DigitChar(d: nat): char
    requires d < 10
  {
    ('0' as int + d) as char
  }

  function NatToString(n: nat): (s: string)
    ensures |s| >= 1
    ensures |s| == 1 <==> n < 10
    ensures forall i :: 0 <= i < |s| ==> '0' <= s[i] <= '9'
  {
    if n < 10 then [DigitChar(n)] else NatToString(n / 10) + [DigitChar(n % 10)]
  }

  /** Different numbers are written differently. */
  lemma {:induction false} NatToStringInjective(m: nat, n: nat)
    requires m != n
    ensures NatToString(m) != NatToString(n)
  {
    if m >= 10 && n >= 10 {
      var sm, sn := NatToString(m), NatToString(n);
      if m % 10 != n % 10 {
        assert sm[|sm| - 1] != sn[|sn| - 1];
      } else {
        assert sm[..|sm| - 1] == NatToString(m / 10);
        assert sn[..|sn| - 1] == NatToString(n / 10);
        NatToStringInjective(m / 10, n / 10);
      }
    } else if m < 10 && n < 10 {
      assert NatToString(m)[0] != NatToString(n)[0];
    }
  }
}
