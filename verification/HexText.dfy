/** The text of a hexadecimal float, reading it back, and the conversion that prints it. */
module HexText {
  import opened Wrappers
  import opened Arithmetic
  import opened Digits
  import opened HexFloat

  // ------------------------------------------------------------------------ text

  /** The text: one leading digit, the digits after the point, and a decimal exponent. */
  function Spell(lead: nat, fraction: nat, digits: nat, exponent: int, upper: bool, alt: bool): string
    requires lead < 10
  {
    (if upper then "0X" else "0x") + [Digit(lead, upper)] + (if digits > 0 || alt then "." else [])
    + DigitsOf(fraction, 16, upper, digits) + ExponentText(exponent, upper)
  }

  function Magnitude(x: int): nat {
    if x < 0 then -x else x
  }

  function ExponentText(exponent: int, upper: bool): string {
    (if upper then "P" else "p") + (if exponent < 0 then "-" else "+") + DigitsOf(Magnitude(exponent), 10, false, 1)
  }

  /** Leading hex digits of a text. */
  function Run(text: string): (n: nat)
    ensures n <= |text|
  {
    if text == [] || !IsDigit(text[0], 16) then 0 else 1 + Run(text[1..])
  }

  lemma {:induction false} RunOf(digits: string, rest: string)
    requires AllDigits(digits, 16) && (rest == [] || !IsDigit(rest[0], 16))
    ensures Run(digits + rest) == |digits|
  {
    if digits == [] {
      assert digits + rest == rest;
    } else {
      assert (digits + rest)[1..] == digits[1..] + rest;
      RunOf(digits[1..], rest);
    }
  }

  /** Reads a C99 hexadecimal floating constant. */
  function ParseHex(text: string): Option<Hex> {
    if |text| < 2 || text[0] != '0' || text[1] !in "xX" then None
    else
      var body := text[2..];
      var n := Run(body);
      var rest := body[n..];
      if n == 0 then None
      else if rest != [] && rest[0] == '.' then
        var m := Run(rest[1..]);
        ParseExponent(body[..n], rest[1..][..m], rest[1..][m..])
      else ParseExponent(body[..n], [], rest)
  }

  function ParseExponent(whole: string, fraction: string, text: string): Option<Hex> {
    if |text| < 3 || text[0] !in "pP" || text[1] !in "+-"
       || (exists i :: 2 <= i < |text| && !IsDigit(text[i], 10)) then None
    else
      var e: int := Number(text[2..], 10);
      Some(Hex(Number(whole + fraction, 16), |fraction|, if text[1] == '-' then -e else e))
  }

  lemma ParseExponentText(whole: string, fraction: string, exponent: int, upper: bool)
    ensures ParseExponent(whole, fraction, ExponentText(exponent, upper))
         == Some(Hex(Number(whole + fraction, 16), |fraction|, exponent))
    ensures ExponentText(exponent, upper) != [] && !IsDigit(ExponentText(exponent, upper)[0], 16)
    ensures ExponentText(exponent, upper)[0] != '.'
  {
    hide DigitsOf;
    var digits, text := DigitsOf(Magnitude(exponent), 10, false, 1), ExponentText(exponent, upper);
    DigitsReadBack(Magnitude(exponent), 10, false, 1);
    DigitsShortest(Magnitude(exponent), 10, false, 1);
    assert text[2..] == digits;
    forall i | 2 <= i < |text| ensures IsDigit(text[i], 10) {
      assert text[i] == digits[i - 2];
    }
  }

  /** What can follow the digits of a number: nothing a digit or a point could be taken for. */
  predicate EndsDigits(tail: string) {
    tail != [] && !IsDigit(tail[0], 16) && tail[0] != '.'
  }

  lemma ParseWithPoint(marker: string, head: string, after: string, tail: string)
    requires (marker == "0x" || marker == "0X") && |head| == 1 && AllDigits(head, 16) && AllDigits(after, 16)
    requires EndsDigits(tail)
    ensures ParseHex(marker + (head + (['.'] + (after + tail)))) == ParseExponent(head, after, tail)
  {
    hide ParseExponent, DigitValue;
    var body := head + (['.'] + (after + tail));
    assert (marker + body)[2..] == body;
    PointIsNoDigit();
    RunOf(head, ['.'] + (after + tail));
    assert body[..1] == head && body[1..] == ['.'] + (after + tail);
    assert body[1..][1..] == after + tail;
    RunOf(after, tail);
    assert (after + tail)[..|after|] == after && (after + tail)[|after|..] == tail;
  }

  lemma ParseWithoutPoint(marker: string, head: string, tail: string)
    requires (marker == "0x" || marker == "0X") && |head| == 1 && AllDigits(head, 16) && EndsDigits(tail)
    ensures ParseHex(marker + (head + tail)) == ParseExponent(head, [], tail)
  {
    hide ParseExponent, DigitValue;
    var body := head + tail;
    assert (marker + body)[2..] == body;
    RunOf(head, tail);
    assert body[..1] == head && body[1..] == tail;
  }

  /** Reading the text back gives the significand, digit count and exponent printed. */
  lemma SpellReadsBack(lead: nat, fraction: nat, digits: nat, exponent: int, upper: bool, alt: bool)
    requires lead < 10 && fraction < Sixteen(digits)
    ensures ParseHex(Spell(lead, fraction, digits, exponent, upper, alt))
         == Some(Hex(Times(lead, Sixteen(digits)) + fraction, digits, exponent))
  {
    hide DigitsOf, ParseHex, ParseExponent, Digit, DigitValue, Number, ExponentText;
    var head, after, tail := [Digit(lead, upper)], DigitsOf(fraction, 16, upper, digits), ExponentText(exponent, upper);
    var marker := if upper then "0X" else "0x";
    DigitsReadBack(fraction, 16, upper, digits);
    DigitsFixed(fraction, 16, upper, digits);
    ParseExponentText(head, after, exponent, upper);
    OneDigit(lead, upper);
    NumberJoin(head, after, 16);
    if digits > 0 || alt {
      assert Spell(lead, fraction, digits, exponent, upper, alt) == marker + (head + (['.'] + (after + tail)));
      ParseWithPoint(marker, head, after, tail);
    } else {
      assert Spell(lead, fraction, digits, exponent, upper, alt) == marker + (head + tail);
      ParseWithoutPoint(marker, head, tail);
    }
  }

  lemma PointIsNoDigit()
    ensures !IsDigit('.', 16)
  {
  }

  lemma OneDigit(d: nat, upper: bool)
    requires d < 10
    ensures AllDigits([Digit(d, upper)], 16) && Number([Digit(d, upper)], 16) == d
  {
    DigitValueOf(d, upper);
    NumberAppend([], Digit(d, upper), 16);
    assert [] + [Digit(d, upper)] == [Digit(d, upper)];
    assert Number([], 16) == 0;
  }

  // ------------------------------------------------------------------ the method

  predicate OneLead(h: Hex) {
    h.significand < 2 * Sixteen(h.digits)
  }

  function LeadDigit(h: Hex): (lead: nat)
    requires OneLead(h)
    ensures lead < 2
  {
    if h.significand < Sixteen(h.digits) then 0 else 1
  }

  function Render(h: Hex, upper: bool, alt: bool): string
    requires OneLead(h)
  {
    Spell(LeadDigit(h), h.significand - LeadDigit(h) * Sixteen(h.digits), h.digits, h.exponent, upper, alt)
  }

  lemma RenderReadsBack(h: Hex, upper: bool, alt: bool)
    requires OneLead(h)
    ensures ParseHex(Render(h, upper, alt)) == Some(h)
  {
    hide Spell, ParseHex, Sixteen;
    SpellReadsBack(LeadDigit(h), h.significand - LeadDigit(h) * Sixteen(h.digits), h.digits, h.exponent, upper, alt);
  }

  /** Dividing the whole significand or only its mantissa differs in the leading digit. */
  lemma RoundSplit(lead: nat, m: nat, d: nat)
    requires lead < 2 && m < HIDDEN && d < 13
    ensures var unit := Sixteen(13 - d);
      && Quotient(lead * HIDDEN + m, unit) == lead * Sixteen(d) + Quotient(m, unit)
      && Remainder(lead * HIDDEN + m, unit) == Remainder(m, unit)
      && Quotient(m, unit) < Sixteen(d)
  {
    hide Times, Quotient, Remainder, Sixteen;
    var unit := Sixteen(13 - d);
    HiddenIsSixteen(d);
    QuotientSplit(m, unit);
    var q := Quotient(m, unit);
    if q >= Sixteen(d) { TimesOrder(Sixteen(d), q, unit); }
    TimesPlus(lead, Sixteen(d), q, unit);
    QuotientIs(lead * HIDDEN + m, unit, lead * Sixteen(d) + q, Remainder(m, unit));
  }

  lemma SixteenParity(d: nat)
    ensures if d == 0 then Sixteen(d) == 1 else Sixteen(d) == 2 * Quotient(Sixteen(d), 2) && Sixteen(d) % 2 == 0
  {
    if d > 0 {
      var p := Pow(16, d - 1);
      PowUnfold(16, d);
      Halves(8 * p);
    }
  }

  lemma HiddenIs()
    ensures Sixteen(13) == HIDDEN
  {
    HiddenIsSixteen(13);
    TimesOne(Sixteen(13));
  }

  lemma Overflow(m: nat, p: nat)
    requires m <= p && p > 0
    ensures if m < p then Quotient(m, p) == 0 else Quotient(m, p) != 0 && Remainder(m, p) == 0
  {
    hide Times, Quotient, Remainder;
    TimesZero(p);
    assert Times(1, p) == p by { TimesNext(0, p); }
    if m < p { QuotientIs(m, p, 0, m); } else { QuotientIs(m, p, 1, 0); }
  }

  /** Rounding below thirteen digits, carrying into the leading digit as the program does. */
  method RoundDigits(bits: nat, d: nat) returns (lead: nat, mantissa: nat, exponent: int)
    requires Finite(bits) && d < 13
    ensures lead < 2 && mantissa < Sixteen(d)
    ensures Hex(lead * Sixteen(d) + mantissa, d, exponent) == Rounded(bits, d)
  {
    hide Times, Quotient, Remainder, Sixteen, Mantissa, Biased;
    lead, mantissa, exponent := Lead(bits), Mantissa(bits), Exponent(bits);
    RoundSplit(lead, mantissa, d);
    SixteenParity(13 - d);
    SixteenParity(d);
    var unit := Sixteen(13 - d);
    var half := Quotient(unit, 2);
    var remainder := Remainder(mantissa, unit);
    mantissa := Quotient(mantissa, unit);
    var odd := (if d == 0 then lead else mantissa) % 2 == 1;
    if remainder > half || (remainder == half && odd) {
      mantissa := mantissa + 1;
      Overflow(mantissa, Sixteen(d));
      if (if d == 0 then mantissa != 0 else Quotient(mantissa, Sixteen(d)) != 0) {
        if d == 0 {
          lead, mantissa := lead + mantissa, 0;
        } else {
          mantissa, lead := Remainder(mantissa, Sixteen(d)), lead + 1;
        }
        if lead == 2 {
          lead, exponent := 1, exponent + 1;
        }
      }
    }
  }

  method StripZeros(bits: nat) returns (mantissa: nat, digits: nat)
    requires Finite(bits)
    ensures mantissa < Sixteen(digits)
    ensures Hex(Lead(bits) * Sixteen(digits) + mantissa, digits, Exponent(bits))
         == Strip(Significand(bits), 13, Exponent(bits))
  {
    hide Times, Above, Last, Sixteen, Lead, Exponent, Mantissa;
    mantissa, digits := Mantissa(bits), 13;
    HiddenIs();
    ghost var goal := Strip(Significand(bits), 13, Exponent(bits));
    while digits > 0 && Last(mantissa, 16) == 0
      invariant digits <= 13 && mantissa < Sixteen(digits)
      invariant goal == Strip(Lead(bits) * Sixteen(digits) + mantissa, digits, Exponent(bits))
    {
      StripOne(Lead(bits), mantissa, digits);
      mantissa := Above(mantissa, 16);
      digits := digits - 1;
    }
    if digits > 0 { StripOne(Lead(bits), mantissa, digits); }
  }

  lemma StripOne(lead: nat, mantissa: nat, digits: nat)
    requires digits > 0 && mantissa < Sixteen(digits)
    ensures var m, p := lead * Sixteen(digits) + mantissa, Sixteen(digits - 1);
      && Last(m, 16) == Last(mantissa, 16) && Above(m, 16) == lead * p + Above(mantissa, 16)
      && Above(mantissa, 16) < p
  {
    hide Last, Above, Times;
    var p := Sixteen(digits - 1);
    PowUnfold(16, digits);
    Split(mantissa, 16);
    AboveSmall(mantissa, 16, digits);
    Unsplit(lead * p + Above(mantissa, 16), Last(mantissa, 16), 16);
    assert lead * (16 * p) == (lead * p) * 16;
  }

  /** The digits after the point, picked from the top. */
  method PrintFraction(mantissa: nat, digits: nat, upper: bool) returns (text: string)
    requires mantissa < Sixteen(digits)
    ensures text == DigitsOf(mantissa, 16, upper, digits)
  {
    hide Quotient, Remainder, Last, Above, Digit;
    text := [];
    var i: nat := digits;
    Overflow(mantissa, Sixteen(digits));
    while i > 0
      invariant i <= digits
      invariant text == DigitsOf(Quotient(mantissa, Sixteen(i)), 16, upper, digits - i)
    {
      i := i - 1;
      QuotientDigit(mantissa, i);
      text := text + [Digit(Last(Quotient(mantissa, Sixteen(i)), 16), upper)];
    }
    assert Quotient(mantissa, Sixteen(0)) == mantissa by { QuotientSplit(mantissa, 1); }
  }

  lemma QuotientDigit(m: nat, i: nat)
    ensures Above(Quotient(m, Sixteen(i)), 16) == Quotient(m, Sixteen(i + 1))
  {
    hide Quotient, Remainder, Above, Last, Times;
    var p := Sixteen(i);
    var q := Quotient(m, p);
    QuotientSplit(m, p);
    Split(q, 16);
    PowUnfold(16, i + 1);
    var low := Times(Last(q, 16), p) + Remainder(m, p);
    TimesOrder(Last(q, 16), 15, p);
    assert Times(15, p) == 15 * p by { TimesIs(15, p); }
    assert Times(q, p) == Times(Above(q, 16), Sixteen(i + 1)) + Times(Last(q, 16), p) by {
      Distribute(Above(q, 16) * 16, Last(q, 16), p);
      TimesIs(Above(q, 16) * 16 + Last(q, 16), p);
      TimesIs(Last(q, 16), p);
      TimesIs(Above(q, 16), Sixteen(i + 1));
      Rotate(Above(q, 16), 16, p);
      assert p * 16 == Sixteen(i + 1) by { TimesIs(16, p); }
    }
    QuotientIs(m, Sixteen(i + 1), Above(q, 16), low);
  }

  function Zeros(n: nat): (z: string)
    ensures |z| == n
  {
    seq(n, _ => '0')
  }

  /** Zeros behind the digits are digits of a number as many powers larger. */
  lemma {:induction false} TrailingZeros(m: nat, digits: nat, zeros: nat, upper: bool)
    ensures DigitsOf(m, 16, upper, digits) + Zeros(zeros)
         == DigitsOf(Times(m, Sixteen(zeros)), 16, upper, digits + zeros)
    decreases zeros
  {
    hide Above, Last, Times;
    if zeros == 0 {
      TimesOne(m);
    } else {
      var less := Times(m, Sixteen(zeros - 1));
      TrailingZeros(m, digits, zeros - 1, upper);
      PowUnfold(16, zeros);
      TimesSwap(m, 16, Sixteen(zeros - 1));
      Unsplit(less, 0, 16);
      assert DigitsOf(m, 16, upper, digits) + Zeros(zeros)
          == (DigitsOf(m, 16, upper, digits) + Zeros(zeros - 1)) + ['0'];
    }
  }

  method SpellOut(lead: nat, mantissa: nat, digits: nat, zeros: nat, exponent: int, upper: bool, alt: bool)
    returns (text: string)
    requires lead < 2 && mantissa < Sixteen(digits) && (zeros > 0 ==> digits > 0)
    ensures text == Spell(lead, Times(mantissa, Sixteen(zeros)), digits + zeros, exponent, upper, alt)
  {
    hide Times, Sixteen, DigitsOf, Digit;
    text := if upper then "0X" else "0x";
    text := text + ['0' + lead as char];
    LeadCharacter(lead, upper);
    if digits > 0 || alt { text := text + "."; }
    ghost var head := text;
    var fraction := PrintFraction(mantissa, digits, upper);
    text := text + fraction;
    if zeros > 0 { text := text + Zeros(zeros); }
    TrailingZeros(mantissa, digits, zeros, upper);
    ghost var number := head + DigitsOf(Times(mantissa, Sixteen(zeros)), 16, upper, digits + zeros);
    assert text == number;
    text := text + (if upper then "P" else "p");
    text := text + (if exponent < 0 then "-" else "+");
    var magnitude := PrintDigits(Magnitude(exponent), 10, false, 1);
    text := text + magnitude;
    assert text == number + ExponentText(exponent, upper);
  }

  lemma LeadCharacter(lead: nat, upper: bool)
    requires lead < 10
    ensures Digit(lead, upper) == '0' + lead as char
  {
  }

  lemma RenderIs(lead: nat, fraction: nat, h: Hex, upper: bool, alt: bool)
    requires lead < 2 && fraction < Sixteen(h.digits) && h.significand == lead * Sixteen(h.digits) + fraction
    ensures OneLead(h) && Render(h, upper, alt) == Spell(lead, fraction, h.digits, h.exponent, upper, alt)
  {
    hide Spell, Sixteen;
  }

  /** Padding multiplies the leading digit and the mantissa alike. */
  lemma PaddedIs(bits: nat, zeros: nat)
    ensures Times(Significand(bits), Sixteen(zeros))
         == Lead(bits) * Sixteen(13 + zeros) + Times(Mantissa(bits), Sixteen(zeros))
    ensures Times(Mantissa(bits), Sixteen(zeros)) < Sixteen(13 + zeros)
  {
    hide Mantissa, Biased, Times, Pow;
    HiddenIs();
    PowAdd(16, 13, zeros);
    TimesIs(HIDDEN, Sixteen(zeros));
    TimesPlus(Lead(bits), HIDDEN, Mantissa(bits), Sixteen(zeros));
    TimesCancel(Mantissa(bits), HIDDEN, Sixteen(zeros));
  }

  lemma {:induction false} StripOneLead(lead: nat, mantissa: nat, digits: nat, exponent: int)
    requires lead < 2 && mantissa < Sixteen(digits)
    ensures OneLead(Strip(lead * Sixteen(digits) + mantissa, digits, exponent))
    decreases digits
  {
    hide Last, Above, Times;
    if digits > 0 {
      StripOne(lead, mantissa, digits);
      StripOneLead(lead, Above(mantissa, 16), digits - 1, exponent);
    }
  }

  lemma HexOfOneLead(bits: nat, precision: int)
    requires Finite(bits)
    ensures OneLead(HexOf(bits, precision))
  {
    hide Times, Sixteen, Strip, Rounded, Biased, Mantissa;
    HiddenIs();
    if precision < 0 {
      StripOneLead(Lead(bits), Mantissa(bits), 13, Exponent(bits));
    } else if precision < 13 {
      RoundedPrintable(bits, precision);
    } else {
      PaddedIs(bits, precision - 13);
    }
  }

  /** The whole conversion. */
  method PrintHexFloat(bits: nat, precision: int, upper: bool, alt: bool) returns (text: string)
    requires Finite(bits)
    ensures OneLead(HexOf(bits, precision))
    ensures text == Render(HexOf(bits, precision), upper, alt)
    ensures ParseHex(text) == Some(HexOf(bits, precision))
  {
    hide Times, Sixteen, Significand, Mantissa, Strip, Spell, Render, OneLead, Rounded, ParseHex;
    HiddenIs();
    SixteenIs(0);
    var lead, mantissa, exponent, digits: nat := Lead(bits), Mantissa(bits), Exponent(bits), 13;
    if 0 <= precision < 13 {
      lead, mantissa, exponent := RoundDigits(bits, precision);
      digits := precision;
    } else if precision < 0 {
      mantissa, digits := StripZeros(bits);
    }
    var zeros: nat := if precision > 13 then precision - 13 else 0;
    text := SpellOut(lead, mantissa, digits, zeros, exponent, upper, alt);
    if precision >= 13 { PaddedIs(bits, zeros); } else { TimesOne(mantissa); }
    RenderIs(lead, Times(mantissa, Sixteen(zeros)), HexOf(bits, precision), upper, alt);
    RenderReadsBack(HexOf(bits, precision), upper, alt);
  }
}
