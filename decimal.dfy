/**
 * Decimal notation of natural numbers, as produced by std::to_string on a
 * non-negative int, together with the reading of such a string back into
 * its value.
 */
module Decimal {

  predicate IsDigit(ch: char)
  {
    '0' <= ch <= '9'
  }

  /** Non-empty, digits only, and no leading zero unless the numeral is "0" itself. */
  predicate IsCanonicalDecimal(s: string)
  {
    |s| >= 1 &&
    (forall i :: 0 <= i < |s| ==> IsDigit(s[i])) &&
    (s[0] == '0' ==> |s| == 1)
  }

  function DigitChar(d: nat): (ch: char)
    requires d < 10
    ensures IsDigit(ch) && (ch == '0' <==> d == 0)
  {
    (d + '0' as int) as char
  }

  function DigitValue(ch: char): (d: nat)
    requires IsDigit(ch)
    ensures d < 10 && DigitChar(d) == ch
  {
    ch as int - '0' as int
  }

  /** The decimal numeral of n, most significant digit first. */
  function NatToDecimal(n: nat): (s: string)
    ensures IsCanonicalDecimal(s)
    ensures s[0] == '0' <==> n == 0
  {
    if n < 10 then [DigitChar(n)]
    else NatToDecimal(n / 10) + [DigitChar(n % 10)]
  }

  /** The value of a string of digits read in base ten ("" reads as 0). */
  function DecimalValue(s: string): nat
    requires forall i :: 0 <= i < |s| ==> IsDigit(s[i])
  {
    if |s| == 0 then 0
    else DecimalValue(s[..|s| - 1]) * 10 + DigitValue(s[|s| - 1])
  }

  /** Reading back the numeral of n gives n. */
  lemma {:induction false} DecimalOfNatToDecimal(n: nat)
    ensures DecimalValue(NatToDecimal(n)) == n
  {
    var s := NatToDecimal(n);
    if n < 10 {
      assert s[..0] == [];
    } else {
      DecimalOfNatToDecimal(n / 10);
      assert s[..|s| - 1] == NatToDecimal(n / 10);
    }
  }

  /** Every canonical numeral is the numeral of its value: formatting is onto the canonical strings. */
  lemma {:induction false} NatToDecimalOfDecimal(s: string)
    requires IsCanonicalDecimal(s)
    ensures NatToDecimal(DecimalValue(s)) == s
  {
    if |s| == 1 {
      assert s[..0] == [];
    } else {
      var prefix := s[..|s| - 1];
      assert prefix[0] == s[0];
      NatToDecimalOfDecimal(prefix);
      var v := DecimalValue(s);
      var d := DigitValue(s[|s| - 1]);
      assert DecimalValue(prefix) != 0;
      assert v / 10 == DecimalValue(prefix) && v % 10 == d;
      assert s == prefix + [s[|s| - 1]];
    }
  }
}
