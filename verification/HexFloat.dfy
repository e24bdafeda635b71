/**
  The hexadecimal floating-point conversion of the formatter.

  A finite, non-negative double is its 64-bit pattern.  All values are exact integers in
  units of 2^-1074, the spacing of the subnormals; a shift or mask by a whole number of
  hex digits is a division or remainder by a power of sixteen.
*/
module HexFloat {
  import opened Arithmetic
  import opened Digits

  const HIDDEN: nat := 0x10_0000_0000_0000  // 2^52, thirteen hex digits
  const INFINITY: nat := 0x7FF0_0000_0000_0000

  /** `significand` / 16^`digits` * 2^`exponent`. */
  datatype Hex = Hex(significand: nat, digits: nat, exponent: int)

  // --------------------------------------------------------------------- doubles

  predicate Finite(bits: nat) {
    bits < INFINITY
  }

  function Biased(bits: nat): nat {
    bits / HIDDEN % 2048
  }

  function Mantissa(bits: nat): (m: nat)
    ensures m < HIDDEN
  {
    bits % HIDDEN
  }

  function Lead(bits: nat): nat {
    if Biased(bits) == 0 then 0 else 1
  }

  function Exponent(bits: nat): int {
    if Biased(bits) == 0 then (if Mantissa(bits) == 0 then 0 else -1022) else Biased(bits) - 1023
  }

  function Significand(bits: nat): nat {
    Lead(bits) * HIDDEN + Mantissa(bits)
  }

  /** The value a pattern stands for, in units of 2^-1074. */
  function Units(bits: nat): nat {
    Times(Significand(bits), Pow(2, Exponent(bits) + 1022))
  }

  /** The value a printed number stands for, in units of 2^-1074 / 16^`scale`. */
  function Scaled(h: Hex, scale: nat): nat
    requires h.digits <= 13 + scale && h.exponent >= -1022
  {
    Times(Times(h.significand, Pow(16, 13 + scale - h.digits)), Pow(2, h.exponent + 1022))
  }

  // -------------------------------------------------------------------- rounding

  /** The multiple of `step` nearest to `m`, as a count of steps, ties to the even count. */
  function RoundEven(m: nat, step: nat): nat
    requires step > 0
  {
    var q, r := Quotient(m, step), Remainder(m, step);
    if 2 * r > step || (2 * r == step && q % 2 == 1) then q + 1 else q
  }

  lemma RoundEvenNearest(m: nat, step: nat, k: nat)
    requires step > 0
    ensures var n := RoundEven(m, step);
      && Distance(Times(n, step), m) <= Distance(Times(k, step), m)
      && (Distance(Times(n, step), m) == Distance(Times(k, step), m) && k != n ==> n % 2 == 0)
  {
    hide Times, Quotient, Remainder;
    var q := Quotient(m, step);
    QuotientSplit(m, step);
    assert Times(q + 1, step) == Times(q, step) + step by { TimesNext(q, step); }
    if k < q { TimesStep(k, q, step); }
    if k > q + 1 { TimesStep(q + 1, k, step); }
  }

  /** Sixteen to the `n`; the hidden bit is sixteen to the 13th. */
  function Sixteen(n: nat): (r: nat)
    ensures r > 0
  {
    Pow(16, n)
  }

  lemma HiddenIsSixteen(d: nat)
    requires d <= 13
    ensures Times(Sixteen(d), Sixteen(13 - d)) == HIDDEN
  {
    PowAdd(16, d, 13 - d);
    assert Pow(16, 4) == 0x1_0000;
    PowAdd(16, 4, 4);
    PowAdd(16, 8, 4);
    PowAdd(16, 12, 1);
    assert Pow(16, 13) == HIDDEN;
  }

  /** The input rounded to `d` hex digits after the point, renormalised when the round
      carries into a second leading digit. */
  function Rounded(bits: nat, d: nat): (h: Hex)
    requires d < 13
    ensures h.digits == d
  {
    var n := RoundEven(Significand(bits), Sixteen(13 - d));
    if n == 2 * Sixteen(d) then Hex(Sixteen(d), d, Exponent(bits) + 1) else Hex(n, d, Exponent(bits))
  }

  /** Drops trailing zero digits after the point. */
  function Strip(m: nat, digits: nat, exponent: int): Hex
    decreases digits
  {
    if digits > 0 && Last(m, 16) == 0 then Strip(Above(m, 16), digits - 1, exponent) else Hex(m, digits, exponent)
  }

  /** What is printed: rounded below thirteen digits, padded from thirteen on, and
      exact without trailing zeros when no precision is given. */
  function HexOf(bits: nat, precision: int): Hex {
    if precision < 0 then Strip(Significand(bits), 13, Exponent(bits))
    else if precision < 13 then Rounded(bits, precision)
    else Hex(Times(Significand(bits), Sixteen(precision - 13)), precision, Exponent(bits))
  }

  // ------------------------------------------------------- rounding is the nearest

  /** The numbers that can be printed with `d` digits after the point: one leading bit,
      set unless the number is below the smallest normal one. */
  predicate Printable(h: Hex, d: nat) {
    && h.digits == d && h.exponent >= -1022 && h.significand < 2 * Sixteen(d)
    && (h.significand >= Sixteen(d) || h.exponent == -1022 || h.significand == 0)
  }

  lemma SignificandBounds(bits: nat)
    requires Finite(bits)
    ensures Significand(bits) < 2 * HIDDEN && Exponent(bits) >= -1022
    ensures Exponent(bits) > -1022 && Significand(bits) > 0 ==> Significand(bits) >= HIDDEN
    ensures Biased(bits) <= 2046
  {
    assert bits / HIDDEN <= 2046;
  }

  /** The rounded number is `RoundEven` steps of the input's own binade, however printed. */
  lemma RoundedValue(bits: nat, d: nat)
    requires Finite(bits) && d < 13
    ensures Rounded(bits, d).exponent >= -1022
    ensures Scaled(Rounded(bits, d), 0)
         == Times(Times(RoundEven(Significand(bits), Sixteen(13 - d)), Sixteen(13 - d)), Pow(2, Exponent(bits) + 1022))
  {
    hide RoundEven, Significand, Exponent, Times, Sixteen;
    SignificandBounds(bits);
    var n, step, e := RoundEven(Significand(bits), Sixteen(13 - d)), Sixteen(13 - d), Exponent(bits) + 1022;
    assert step == Pow(16, 13 - d) by { SixteenIs(13 - d); }
    if n == 2 * Sixteen(d) {
      PowUnfold(2, e + 1);
      Renormalise(Sixteen(d), step, Pow(2, e));
    }
  }

  lemma SixteenIs(n: nat)
    ensures Sixteen(n) == Pow(16, n)
  {
  }

  lemma RoundedPrintable(bits: nat, d: nat)
    requires Finite(bits) && d < 13
    ensures Printable(Rounded(bits, d), d)
  {
    hide Significand, Exponent, Times, Quotient, Remainder, Sixteen;
    SignificandBounds(bits);
    HiddenIsSixteen(d);
    var m, step := Significand(bits), Sixteen(13 - d);
    QuotientSplit(m, step);
    var q := Quotient(m, step);
    assert Times(2 * Sixteen(d), step) == 2 * HIDDEN by { TimesDouble(Sixteen(d), step); }
    if q >= 2 * Sixteen(d) { TimesOrder(2 * Sixteen(d), q, step); }
    if q < Sixteen(d) { TimesStep(q, Sixteen(d), step); }
    if m == 0 { QuotientIs(0, step, 0, 0) by { TimesZero(step); } }
  }

  /** A candidate at the input's exponent or above counts whole steps of the input. */
  lemma CandidateAbove(c: nat, step: nat, e: nat, f: nat)
    requires e <= f
    ensures Times(Times(c, step), Pow(2, f)) == Times(Times(Times(c, Pow(2, f - e)), step), Pow(2, e))
  {
    PowAdd(2, f - e, e);
    Regroup(c, step, Pow(2, f - e), Pow(2, e));
  }

  /** A candidate below the input's exponent is below the input's whole binade. */
  lemma CandidateBelow(c: nat, low: nat, step: nat, f: nat, e: nat)
    requires c < 2 * low && f < e && step > 0
    ensures Times(Times(c, step), Pow(2, f)) < Times(Times(low, step), Pow(2, e))
  {
    hide Times, Pow;
    TimesCancel(c, 2 * low, step);
    var a, b := Times(c, step), Times(2 * low, step);
    TimesCancel(a, b, Pow(2, f));
    assert b == 2 * Times(low, step) by { TimesDouble(low, step); }
    assert Times(b, Pow(2, f)) == 2 * Times(Times(low, step), Pow(2, f))
    by { TimesDouble(Times(low, step), Pow(2, f)); }
    PowGrows(f + 1, e);
    PowUnfold(2, f + 1);
    TimesTwice(Times(low, step), Pow(2, f));
    TimesMonoRight(Times(low, step), Pow(2, f + 1), Pow(2, e));
  }

  lemma NearestInBinade(m: nat, step: nat, p: nat, k: nat)
    requires step > 0 && p > 0
    ensures var n := RoundEven(m, step); var h, c := Times(Times(n, step), p), Times(Times(k, step), p);
      && Distance(h, Times(m, p)) <= Distance(c, Times(m, p))
      && (Distance(h, Times(m, p)) == Distance(c, Times(m, p)) && h != c ==> n % 2 == 0)
  {
    hide RoundEven, Times, Distance;
    var n := RoundEven(m, step);
    RoundEvenNearest(m, step, k);
    DistanceScale(Times(n, step), m, p);
    DistanceScale(Times(k, step), m, p);
    TimesCancel(Distance(Times(n, step), m), Distance(Times(k, step), m), p);
    TimesCancel(Distance(Times(k, step), m), Distance(Times(n, step), m), p);
  }

  /** An even count of steps prints an even last digit; the one exception carries into a
      new leading digit with nothing after the point, and then the printed number is the
      larger neighbour. */
  lemma TieParity(bits: nat, d: nat)
    requires Finite(bits) && d < 13 && RoundEven(Significand(bits), Sixteen(13 - d)) % 2 == 0
    ensures Rounded(bits, d).exponent >= -1022
    ensures Rounded(bits, d).significand % 2 == 0 || (d == 0 && Scaled(Rounded(bits, d), 0) > Units(bits))
  {
    hide RoundEven, Significand, Exponent, Times, Scaled;
    SignificandBounds(bits);
    var n, step := RoundEven(Significand(bits), Sixteen(13 - d)), Sixteen(13 - d);
    RoundedValue(bits, d);
    if n == 2 * Sixteen(d) {
      if d > 0 {
        PowUnfold(16, d);
      } else {
        HiddenIsSixteen(0);
        TimesDouble(Sixteen(0), step);
        TimesCancel(Significand(bits), Times(n, step), Pow(2, Exponent(bits) + 1022));
      }
    }
  }

  lemma ZeroRounds(step: nat)
    requires step > 0
    ensures RoundEven(0, step) == 0
  {
    QuotientIs(0, step, 0, 0);
  }

  /** Correct rounding (section 4.3.1 of IEEE 754-2008): no number that can be printed
      with `d` digits is nearer to the input, and a tie goes to the even significand, or,
      with no digit after the point and no even neighbour, to the larger number. */
  lemma NearestEven(bits: nat, d: nat, c: Hex)
    requires Finite(bits) && d < 13 && Printable(c, d)
    ensures var h := Rounded(bits, d);
      && Printable(h, d)
      && Distance(Scaled(h, 0), Units(bits)) <= Distance(Scaled(c, 0), Units(bits))
      && (Distance(Scaled(h, 0), Units(bits)) == Distance(Scaled(c, 0), Units(bits)) && Scaled(h, 0) != Scaled(c, 0)
          ==> h.significand % 2 == 0 || (d == 0 && Scaled(h, 0) > Units(bits)))
  {
    hide RoundEven, Significand, Exponent, Times, Pow, Distance;
    RoundedPrintable(bits, d);
    RoundedValue(bits, d);
    SignificandBounds(bits);
    var m, step, e := Significand(bits), Sixteen(13 - d), Exponent(bits) + 1022;
    var f := c.exponent + 1022;
    if f >= e {
      var k := Times(c.significand, Pow(2, f - e));
      CandidateAbove(c.significand, step, e, f);
      NearestInBinade(m, step, Pow(2, e), k);
      if RoundEven(m, step) % 2 == 0 { TieParity(bits, d); }
    } else if m == 0 {
      ZeroRounds(step);
      TimesZero(step);
      TimesZero(Pow(2, e));
      DistanceZero(Scaled(c, 0));
    } else {
      HiddenIsSixteen(d);
      CandidateBelow(c.significand, Sixteen(d), step, f, e);
      NearestInBinade(m, step, Pow(2, e), Sixteen(d));
      TimesOrder(HIDDEN, m, Pow(2, e));
      FartherBelow(Scaled(c, 0), Times(HIDDEN, Pow(2, e)), Units(bits));
    }
  }

  // ----------------------------------------------------------- exact conversions

  lemma {:induction false} StripKeeps(m: nat, digits: nat, exponent: int)
    ensures var h := Strip(m, digits, exponent);
      && h.digits <= digits && h.exponent == exponent
      && Times(h.significand, Sixteen(digits - h.digits)) == m
      && (h.digits > 0 ==> Last(h.significand, 16) != 0)
    decreases digits
  {
    hide Times, Last, Above;
    if digits > 0 && Last(m, 16) == 0 {
      StripKeeps(Above(m, 16), digits - 1, exponent);
      var h := Strip(Above(m, 16), digits - 1, exponent);
      Split(m, 16);
      PowUnfold(16, digits - h.digits);
      TimesSwap(h.significand, 16, Sixteen(digits - 1 - h.digits));
    } else {
      TimesOne(m);
    }
  }

  /** With no precision, or thirteen digits or more, the number printed is the input
      itself, and without a precision no zero digit trails it. */
  lemma Exact(bits: nat, precision: int)
    requires Finite(bits) && !(0 <= precision < 13)
    ensures var h, scale := HexOf(bits, precision), if precision < 13 then 0 else (precision - 13) as nat;
      && h.exponent >= -1022 && h.digits <= 13 + scale
      && Scaled(h, scale) == Times(Units(bits), Sixteen(scale))
      && (precision < 0 && h.digits > 0 ==> Last(h.significand, 16) != 0)
  {
    hide Significand, Exponent, Times, Pow, Last, Strip;
    SignificandBounds(bits);
    var m, p2 := Significand(bits), Pow(2, Exponent(bits) + 1022);
    if precision < 0 {
      StripKeeps(m, 13, Exponent(bits));
      TimesOne(Times(m, p2));
    } else {
      var p16 := Sixteen(precision - 13);
      TimesOne(Times(m, p16));
      TimesCommute(m, p16, p2);
    }
  }

  lemma UnitsNext(bits: nat)
    requires Finite(bits + 1)
    ensures Units(bits) < Units(bits + 1)
  {
    hide Times, Pow;
    var e := Exponent(bits) + 1022;
    SignificandBounds(bits);
    if bits > 0 { PatternNext(bits); }
    if bits == 0 {
      TimesZero(Pow(2, 1022));
    } else if Exponent(bits + 1) == Exponent(bits) {
      TimesCancel(Significand(bits), Significand(bits + 1), Pow(2, e));
    } else {
      TimesCancel(Significand(bits), 2 * HIDDEN, Pow(2, e));
      PowUnfold(2, e + 1);
      TimesTwice(HIDDEN, Pow(2, e));
      TimesDouble(HIDDEN, Pow(2, e));
    }
  }

  lemma PatternNext(bits: nat)
    requires Finite(bits + 1) && bits > 0
    ensures Exponent(bits + 1) == Exponent(bits) ==> Significand(bits + 1) == Significand(bits) + 1
    ensures Exponent(bits + 1) != Exponent(bits) ==>
      Exponent(bits + 1) == Exponent(bits) + 1 && Significand(bits + 1) == HIDDEN
  {
    var q, r := bits / HIDDEN, bits % HIDDEN;
    assert bits == q * HIDDEN + r && q <= 2046;
    if r + 1 < HIDDEN {
      assert (bits + 1) / HIDDEN == q && (bits + 1) % HIDDEN == r + 1;
    } else {
      assert (bits + 1) / HIDDEN == q + 1 && (bits + 1) % HIDDEN == 0;
    }
  }

  lemma {:induction false} UnitsIncrease(a: nat, b: nat)
    requires a < b && Finite(b)
    ensures Units(a) < Units(b)
    decreases b
  {
    UnitsNext(b - 1);
    if a < b - 1 { UnitsIncrease(a, b - 1); }
  }

  /** So the exact text determines the very pattern it was printed from. */
  lemma ExactDetermines(a: nat, b: nat, precision: int)
    requires Finite(a) && Finite(b) && !(0 <= precision < 13) && HexOf(a, precision) == HexOf(b, precision)
    ensures a == b
  {
    hide Units, HexOf, Scaled;
    Exact(a, precision);
    Exact(b, precision);
    var scale := if precision < 13 then 0 else (precision - 13) as nat;
    TimesCancel(Units(a), Units(b), Sixteen(scale));
    if a < b { UnitsIncrease(a, b); } else if b < a { UnitsIncrease(b, a); }
  }
}
