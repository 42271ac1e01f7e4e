/**
 * Decimal text of the numbers that appear in icon names, as JavaScript's
 * template literals print them (`${20}` is "20", `${83.5}` is "83.5").
 */
module Numbers {

  predicate IsDigit(c: char) {
    '0' <= c <= '9'
  }

  function DigitChar(d: nat): (c: char)
    requires d < 10
    ensures IsDigit(c)
  {
    ('0' as int + d) as char
  }

  function DigitValue(c: char): (d: nat)
    requires IsDigit(c)
    ensures d < 10
    ensures DigitChar(d) == c
  {
    c as int - '0' as int
  }

  /** Decimal text of n: only digits, and no leading zero unless n is 0. */
  function NatToString(n: nat): (s: string)
    ensures 1 <= |s|
    ensures forall i :: 0 <= i < |s| ==> IsDigit(s[i])
    ensures s[0] == '0' ==> n == 0 && |s| == 1
    decreases n
  {
    if n < 10 then [DigitChar(n)] else NatToString(n / 10) + [DigitChar(n % 10)]
  }

  /** The value of a string of decimal digits. */
  function ParseNat(s: string): nat
    requires forall i :: 0 <= i < |s| ==> IsDigit(s[i])
  {
    if s == [] then 0 else ParseNat(s[..|s| - 1]) * 10 + DigitValue(s[|s| - 1])
  }

  /** Reading back the printed decimal gives the number. */
  lemma {:induction false} ParseNatToString(n: nat)
    ensures ParseNat(NatToString(n)) == n
    decreases n
  {
    var s := NatToString(n);
    if n < 10 {
      assert s[..|s| - 1] == [];
    } else {
      assert s[..|s| - 1] == NatToString(n / 10);
      ParseNatToString(n / 10);
    }
  }

  lemma NatToStringInjective(a: nat, b: nat)
    ensures NatToString(a) == NatToString(b) <==> a == b
  {
    if NatToString(a) == NatToString(b) {
      ParseNatToString(a);
      ParseNatToString(b);
    }
  }

  /**
   * Text of the logical size h / 2 (h counts half points): the whole part,
   * then ".5" when h is odd.
   */
  function HalfText(h: nat): (s: string)
    ensures forall i :: 0 <= i < |s| ==> IsDigit(s[i]) || s[i] == '.'
    ensures '.' in s <==> h % 2 == 1
  {
    NatToString(h / 2) + (if h % 2 == 1 then ".5" else "")
  }

  /** Distinct half-point sizes print differently. */
  lemma HalfTextInjective(a: nat, b: nat)
    ensures HalfText(a) == HalfText(b) <==> a == b
  {
    if HalfText(a) == HalfText(b) {
      assert a % 2 == b % 2;
      var sa, sb := NatToString(a / 2), NatToString(b / 2);
      if a % 2 == 1 {
        assert HalfText(a)[..|HalfText(a)| - 2] == sa;
        assert HalfText(b)[..|HalfText(b)| - 2] == sb;
      } else {
        assert HalfText(a) == sa + "" == sa;
        assert HalfText(b) == sb + "" == sb;
      }
      assert sa == sb;
      NatToStringInjective(a / 2, b / 2);
    }
  }
}
