/** Decimal text of natural numbers, as `to_string` writes it. */
module Decimals {
  function Digit(d: nat): char
    requires d < 10
  {
    "0123456789"[d]
  }

  function DigitValue(c: char): nat {
    if '0' <= c <= '9' then c as int - '0' as int else 0
  }

  predicate IsDigit(c: char) {
    '0' <= c <= '9'
  }

  function Decimal(n: nat): (text: string)
    ensures 1 <= |text| && forall i :: 0 <= i < |text| ==> IsDigit(text[i])
  {
    if n < 10 then [Digit(n)] else Decimal(n / 10) + [Digit(n % 10)]
  }

  function IntText(n: int): string {
    if n < 0 then "-" + Decimal(-n) else Decimal(n)
  }

  function Value(text: string): nat {
    if text == [] then 0 else 10 * Value(text[..|text| - 1]) + DigitValue(text[|text| - 1])
  }

  lemma {:induction false} ValueOfDecimal(n: nat)
    ensures Value(Decimal(n)) == n
  {
    var text := Decimal(n);
    if n < 10 {
      assert text[..0] == [];
    } else {
      ValueOfDecimal(n / 10);
      assert text[..|text| - 1] == Decimal(n / 10);
    }
  }

  /** The text of an integer reads as that integer: a sign exactly when it is
      negative, and digits that say its size. */
  lemma {:induction false} ValueOfIntText(n: int)
    ensures n < 0 ==> IntText(n)[0] == '-' && Value(IntText(n)[1..]) == -n
    ensures n >= 0 ==> IsDigit(IntText(n)[0]) && Value(IntText(n)) == n
  {
    ValueOfDecimal(if n < 0 then -n else n);
    assert n < 0 ==> IntText(n)[1..] == Decimal(-n);
  }

  /** Different numbers have different texts. */
  lemma {:induction false} DecimalInjective(m: nat, n: nat)
    requires Decimal(m) == Decimal(n)
    ensures m == n
  {
    ValueOfDecimal(m);
    ValueOfDecimal(n);
  }
}
