/** Positional numerals: printing a number in a radix and reading it back. */
module Digits {
  import opened Arithmetic

  // Reading names the last digit, as printing produces it.

  predicate Radix(radix: int) {
    2 <= radix <= 16
  }

  /** A number split into the part above its last digit, and that digit. */
  function Above(value: nat, radix: nat): (r: nat)
    requires Radix(radix)
    ensures r <= value && (value > 0 ==> r < value)
  {
    value / radix
  }

  function Last(value: nat, radix: nat): (r: nat)
    requires Radix(radix)
    ensures r < radix
  {
    value % radix
  }

  lemma Split(value: nat, radix: nat)
    requires Radix(radix)
    ensures Above(value, radix) * radix + Last(value, radix) == value
  {
  }

  lemma Recomposed(value: nat, radix: nat)
    requires Radix(radix)
    ensures Times(Above(value, radix), radix) + Last(value, radix) == value
  {
    hide Above, Last;
    Split(value, radix);
  }

  lemma Unsplit(above: nat, last: nat, radix: nat)
    requires Radix(radix) && last < radix
    ensures Above(above * radix + last, radix) == above && Last(above * radix + last, radix) == last
  {
    hide Times, Above, Last;
    var value := above * radix + last;
    TimesIs(above, radix);
    QuotientIs(value, radix, above, last);
    SplitIsQuotient(value, radix);
  }

  lemma SplitIsQuotient(value: nat, radix: nat)
    requires Radix(radix)
    ensures Above(value, radix) == Quotient(value, radix) && Last(value, radix) == Remainder(value, radix)
  {
  }

  function Digit(d: nat, upper: bool): (c: char)
    requires d < 16
    ensures d < 10 ==> c == '0' + d as char
  {
    if upper then "0123456789ABCDEF"[d] else "0123456789abcdef"[d]
  }

  predicate IsDigit(c: char, radix: nat) {
    DigitValue(c) < radix
  }

  /** The value of a digit character; 16 for any other character. */
  function DigitValue(c: char): nat {
    if '0' <= c <= '9' then (c - '0') as nat
    else if 'a' <= c <= 'f' then (c - 'a') as nat + 10
    else if 'A' <= c <= 'F' then (c - 'A') as nat + 10
    else 16
  }

  lemma DigitValueOf(d: nat, upper: bool)
    requires d < 16
    ensures DigitValue(Digit(d, upper)) == d
  {
  }

  predicate AllDigits(text: string, radix: nat) {
    forall i :: 0 <= i < |text| ==> IsDigit(text[i], radix)
  }

  /** The number a string of digits denotes. */
  function Number(text: string, radix: nat): nat {
    if text == [] then 0
    else Times(Number(text[..|text| - 1], radix), radix) + DigitValue(text[|text| - 1])
  }

  lemma NumberAppend(text: string, c: char, radix: nat)
    ensures Number(text + [c], radix) == Times(Number(text, radix), radix) + DigitValue(c)
  {
    hide Times, DigitValue;
    var longer := text + [c];
    assert longer[..|longer| - 1] == text;
  }

  /** The shortest numeral of at least `minDigits` digits. */
  function DigitsOf(value: nat, radix: nat, upper: bool, minDigits: int): string
    requires Radix(radix)
    decreases value, minDigits
  {
    if value == 0 && minDigits <= 0 then []
    else DigitsOf(Above(value, radix), radix, upper, minDigits - 1) + [Digit(Last(value, radix), upper)]
  }

  /** Read back in its radix, a printed number is the number. */
  lemma {:induction false} DigitsReadBack(value: nat, radix: nat, upper: bool, minDigits: int)
    requires Radix(radix)
    ensures Number(DigitsOf(value, radix, upper, minDigits), radix) == value
    ensures AllDigits(DigitsOf(value, radix, upper, minDigits), radix)
    decreases value, minDigits
  {
    hide Last, Above, Digit, DigitValue, Times;
    if !(value == 0 && minDigits <= 0) {
      var above, d := Above(value, radix), Last(value, radix);
      DigitsReadBack(above, radix, upper, minDigits - 1);
      NumberAppend(DigitsOf(above, radix, upper, minDigits - 1), Digit(d, upper), radix);
      DigitValueOf(d, upper);
      Recomposed(value, radix);
    }
  }

  /** It has at least the digits asked for, and no leading zero beyond them. */
  lemma {:induction false} DigitsShortest(value: nat, radix: nat, upper: bool, minDigits: int)
    requires Radix(radix)
    ensures var text := DigitsOf(value, radix, upper, minDigits);
      |text| >= minDigits && (|text| > minDigits && |text| > 0 ==> DigitValue(text[0]) != 0)
    decreases value, minDigits
  {
    hide Digit, DigitValue;
    if !(value == 0 && minDigits <= 0) {
      var above := Above(value, radix);
      DigitsShortest(above, radix, upper, minDigits - 1);
      DigitValueOf(Last(value, radix), upper);
      if above == 0 && minDigits - 1 <= 0 {
        Split(value, radix);
      }
    }
  }

  lemma {:induction false} DigitsCanonical(value: nat, radix: nat, upper: bool, minDigits: int)
    requires Radix(radix)
    ensures Canonical(DigitsOf(value, radix, upper, minDigits), radix, upper, minDigits)
    decreases value, minDigits
  {
    DigitsShortest(value, radix, upper, minDigits);
    if !(value == 0 && minDigits <= 0) {
      DigitsCanonical(Above(value, radix), radix, upper, minDigits - 1);
      DigitValueOf(Last(value, radix), upper);
    }
  }

  /** These two facts pin the numeral down: no other string of the same alphabet has them. */
  lemma {:induction false} DigitsUnique(a: string, b: string, radix: nat, upper: bool, minDigits: int)
    requires Radix(radix) && Canonical(a, radix, upper, minDigits) && Canonical(b, radix, upper, minDigits)
    requires Number(a, radix) == Number(b, radix)
    ensures a == b
    decreases |a|
  {
    hide Digit, DigitValue, Above, Last;
    if a == [] {
      if b != [] { LeadingNonZero(b, radix); }
    } else if b == [] {
      LeadingNonZero(a, radix);
    } else {
      var a', b' := a[..|a| - 1], b[..|b| - 1];
      LastOfNumber(a, radix);
      LastOfNumber(b, radix);
      assert Canonical(a', radix, upper, minDigits - 1) && Canonical(b', radix, upper, minDigits - 1);
      DigitsUnique(a', b', radix, upper, minDigits - 1);
      SameDigit(a[|a| - 1], b[|b| - 1], upper);
      assert a == a' + [a[|a| - 1]] && b == b' + [b[|b| - 1]];
    }
  }

  predicate InAlphabet(c: char, radix: nat, upper: bool) {
    IsDigit(c, radix) && (if upper then !('a' <= c <= 'f') else !('A' <= c <= 'F'))
  }

  predicate Canonical(text: string, radix: nat, upper: bool, minDigits: int) {
    && (forall i :: 0 <= i < |text| ==> InAlphabet(text[i], radix, upper))
    && |text| >= minDigits
    && (|text| > minDigits && |text| > 0 ==> DigitValue(text[0]) != 0)
  }

  lemma SameDigit(a: char, b: char, upper: bool)
    requires InAlphabet(a, 16, upper) && InAlphabet(b, 16, upper) && DigitValue(a) == DigitValue(b)
    ensures a == b
  {
  }

  lemma LastOfNumber(text: string, radix: nat)
    requires Radix(radix) && text != [] && IsDigit(text[|text| - 1], radix)
    ensures Above(Number(text, radix), radix) == Number(text[..|text| - 1], radix)
    ensures Last(Number(text, radix), radix) == DigitValue(text[|text| - 1])
  {
    hide Above, Last, Times, DigitValue;
    TimesIs(Number(text[..|text| - 1], radix), radix);
    Unsplit(Number(text[..|text| - 1], radix), DigitValue(text[|text| - 1]), radix);
  }

  lemma {:induction false} LeadingNonZero(text: string, radix: nat)
    requires radix > 0 && text != [] && DigitValue(text[0]) != 0
    ensures Number(text, radix) > 0
  {
    hide Times, DigitValue;
    if |text| > 1 { LeadingNonZero(text[..|text| - 1], radix); }
  }

  function Reversed(s: string): (r: string)
    ensures |r| == |s|
  {
    if s == [] then [] else Reversed(s[1..]) + [s[0]]
  }

  lemma {:induction false} ReversedAppend(s: string, c: char)
    ensures Reversed(s + [c]) == [c] + Reversed(s)
  {
    if s != [] {
      ReversedAppend(s[1..], c);
      assert (s + [c])[1..] == s[1..] + [c];
    }
  }

  /** The program's printing loop: the last digit first, then reversed. */
  method PrintDigits(value: nat, radix: nat, upper: bool, minDigits: int) returns (text: string)
    requires Radix(radix)
    ensures text == DigitsOf(value, radix, upper, minDigits)
  {
    var reversed: string := [];
    var left := value;
    while left != 0 || |reversed| < minDigits
      invariant DigitsOf(value, radix, upper, minDigits)
             == DigitsOf(left, radix, upper, minDigits - |reversed|) + Reversed(reversed)
      decreases left, minDigits - |reversed|
    {
      ghost var high := DigitsOf(Above(left, radix), radix, upper, minDigits - |reversed| - 1);
      var c := Digit(Last(left, radix), upper);
      assert (high + [c]) + Reversed(reversed) == high + ([c] + Reversed(reversed));
      ReversedAppend(reversed, c);
      reversed := reversed + [c];
      left := Above(left, radix);
    }
    assert DigitsOf(left, radix, upper, minDigits - |reversed|) == [];
    text := Reversed(reversed);
  }

  // ---------------------------------------------------------------- fixed length

  lemma AboveSmall(value: nat, radix: nat, n: nat)
    requires Radix(radix) && n > 0 && value < Pow(radix, n)
    ensures Above(value, radix) < Pow(radix, n - 1)
  {
    hide Above, Last, Pow;
    var above, p := Above(value, radix), Pow(radix, n - 1);
    assert Pow(radix, n) == Times(radix, p) by { PowUnfold(radix, n); }
    Split(value, radix);
    if above >= p { TimesMono(radix, p, above); }
  }

  /** A number below `radix` to the `n` needs no more than `n` digits. */
  lemma {:induction false} DigitsFixed(value: nat, radix: nat, upper: bool, n: nat)
    requires Radix(radix) && value < Pow(radix, n)
    ensures |DigitsOf(value, radix, upper, n)| == n
    decreases n
  {
    if n > 0 {
      AboveSmall(value, radix, n);
      DigitsFixed(Above(value, radix), radix, upper, n - 1);
    }
  }

  lemma {:induction false} NumberJoin(a: string, b: string, radix: nat)
    ensures Number(a + b, radix) == Times(Number(a, radix), Pow(radix, |b|)) + Number(b, radix)
    decreases |b|
  {
    hide Times, DigitValue;
    if b == [] {
      assert a + b == a;
      TimesIs(Number(a, radix), 1);
    } else {
      var b' := b[..|b| - 1];
      NumberJoin(a, b', radix);
      assert (a + b)[..|a + b| - 1] == a + b';
      TimesSpread(Number(a, radix), Pow(radix, |b'|), Number(b', radix), radix);
    }
  }
}
