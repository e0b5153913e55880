/** Exactly which texts `strconv.Atoi` reads, and as what. */
module Numerals {
  import opened Logic
  import opened Integers

  /** An optional sign and at least one digit. */
  predicate Numeral(s: string, sign: string, digits: string) {
    (sign == "" || sign == "+" || sign == "-") && digits != "" && AllDigits(digits) && s == sign + digits
  }

  function Signed(sign: string, value: int): int { if sign == "-" then -value else value }

  /** A text is read as `n` exactly when it is an optional sign and digits of that value within 64 bits; leading zeros
      and a plus sign do not matter. */
  lemma AtoiExact(s: string, n: int)
    ensures Atoi(s) == Some(n) <==>
      -9223372036854775808 <= n <= 9223372036854775807
      && exists sign, digits ::
           Numeral(s, sign, digits) && n == Signed(sign, DigitsValue(digits))
  {
    if Atoi(s) == Some(n) {
      var signed := s[0] == '-' || s[0] == '+';
      var sign, digits := if signed then s[..1] else "", if signed then s[1..] else s;
      assert s == sign + digits && Numeral(s, sign, digits);
    }
    forall sign, digits | Numeral(s, sign, digits)
      ensures Atoi(s) == Some(n) <==>
        -9223372036854775808 <= n <= 9223372036854775807
        && n == Signed(sign, DigitsValue(digits))
    {
      assert s[0] == if sign == "" then digits[0] else sign[0];
      assert digits == if sign == "" then s else s[1..];
    }
  }

  /** The value of a numeral is that of its digits in base ten. */
  lemma {:induction false} DigitsInBaseTen(a: string, b: string)
    requires AllDigits(a) && AllDigits(b)
    ensures DigitsValue(a + b) == DigitsValue(a) * Power(10, |b|) + DigitsValue(b)
    decreases |b|
  {
    if b == "" {
      assert a + b == a;
    } else {
      var init := b[..|b| - 1];
      assert (a + b)[..|a + b| - 1] == a + init;
      DigitsInBaseTen(a, init);
      Shifted(DigitsValue(a), Power(10, |init|));
    }
  }

  function Power(base: nat, n: nat): nat { if n == 0 then 1 else base * Power(base, n - 1) }

  lemma Shifted(a: nat, p: nat)
    ensures 10 * (a * p) == a * (10 * p)
  {
  }

  lemma OneDigit(d: nat)
    requires d < 10
    ensures AllDigits([('0' as int + d) as char]) && DigitsValue([('0' as int + d) as char]) == d
  {
    var s := [('0' as int + d) as char];
    assert s[..0] == "";
  }
}
