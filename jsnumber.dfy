/**
 * The part of JavaScript's string-to-number coercion that the validators of
 * script.js rely on: unary `+` on a string, and the implicit conversion a
 * relational comparison such as `hours < 0` applies to a string operand.
 *
 * A JavaScript number is modelled as an integer or NaN. The empty string reads
 * as 0, an optionally signed run of decimal digits reads as its value, and every
 * other string (and `undefined`, the value of a missing split component) reads
 * as NaN.
 */
module JsNumber {

  datatype Num = Int(value: int) | NaN

  /** `x < c` in JavaScript: every comparison with NaN is false. */
  predicate Less(x: Num, c: int) {
    x.Int? && x.value < c
  }

  /** `x > c` in JavaScript: every comparison with NaN is false. */
  predicate Greater(x: Num, c: int) {
    x.Int? && x.value > c
  }

  predicate IsDigit(c: char) {
    '0' <= c <= '9'
  }

  predicate AllDigits(s: string) {
    forall i :: 0 <= i < |s| ==> IsDigit(s[i])
  }

  function DigitValue(c: char): nat
    requires IsDigit(c)
  {
    c as int - '0' as int
  }

  /** The value of a run of decimal digits, most significant digit first. */
  function DigitsValue(s: string): nat
    requires AllDigits(s)
    decreases |s|
  {
    if s == [] then 0
    else DigitsValue(s[..|s| - 1]) * 10 + DigitValue(s[|s| - 1])
  }

  /** ToNumber applied to a string, as unary `+` does. */
  function ToNumber(s: string): Num {
    if s == [] then Int(0)
    else if (s[0] == '-' || s[0] == '+') && |s| > 1 && AllDigits(s[1..]) then
      Int(if s[0] == '-' then -(DigitsValue(s[1..]) as int) else DigitsValue(s[1..]))
    else if AllDigits(s) then Int(DigitsValue(s))
    else NaN
  }

  /** A leading zero does not change the value of a digit run. */
  lemma {:induction false} LeadingZero(s: string)
    requires AllDigits(s)
    ensures AllDigits("0" + s)
    ensures DigitsValue("0" + s) == DigitsValue(s)
    decreases |s|
  {
    var z := "0" + s;
    assert forall i :: 0 <= i < |z| ==> IsDigit(z[i]) by {
      forall i | 0 <= i < |z| ensures IsDigit(z[i]) {
        if i > 0 { assert z[i] == s[i - 1]; }
      }
    }
    if s != [] {
      var init := s[..|s| - 1];
      assert AllDigits(init) by {
        forall i | 0 <= i < |init| ensures IsDigit(init[i]) { assert init[i] == s[i]; }
      }
      LeadingZero(init);
      assert z[..|z| - 1] == "0" + init;
      assert z[|z| - 1] == s[|s| - 1];
    }
  }

  /** The value of a one-digit string. */
  lemma OneDigit(s: string)
    requires |s| == 1 && IsDigit(s[0])
    ensures ToNumber(s) == Int(DigitValue(s[0]))
    ensures ToNumber("-" + s) == Int(-(DigitValue(s[0]) as int))
  {
    assert AllDigits(s) && s[..|s| - 1] == [];
    assert DigitsValue(s) == DigitValue(s[0]);
    assert ("-" + s)[1..] == s;
  }

  /** The value of a two-digit string such as a day, month, hour or minute. */
  lemma TwoDigits(s: string)
    requires |s| == 2 && IsDigit(s[0]) && IsDigit(s[1])
    ensures ToNumber(s) == Int(DigitValue(s[0]) * 10 + DigitValue(s[1]))
  {
    assert AllDigits(s);
    assert s[..1][..0] == [];
    assert DigitsValue(s[..1]) == DigitValue(s[0]);
  }

  /** The value of a four-digit string such as a year. */
  lemma FourDigits(s: string)
    requires |s| == 4 && IsDigit(s[0]) && IsDigit(s[1]) && IsDigit(s[2]) && IsDigit(s[3])
    ensures ToNumber(s) ==
      Int(DigitValue(s[0]) * 1000 + DigitValue(s[1]) * 100 + DigitValue(s[2]) * 10 + DigitValue(s[3]))
  {
    assert AllDigits(s);
    assert s[..3][..2][..1][..0] == [];
    assert s[..3][..2][..1] == s[..1];
    assert s[..3][..2] == s[..2];
    assert DigitsValue(s[..1]) == DigitValue(s[0]);
    assert DigitsValue(s[..2]) == DigitValue(s[0]) * 10 + DigitValue(s[1]);
    assert DigitsValue(s[..3]) == DigitValue(s[0]) * 100 + DigitValue(s[1]) * 10 + DigitValue(s[2]);
  }
}
