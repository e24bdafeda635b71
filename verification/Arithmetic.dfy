/** Products, powers and quotients, kept behind names so that each fact about them is used
    where it is called. */
module Arithmetic {

  function Times(a: nat, b: nat): (r: nat)
    ensures a > 0 && b > 0 ==> r > 0
  {
    a * b
  }

  function Pow(base: nat, n: nat): (r: nat)
    ensures base > 0 ==> r > 0
  {
    if n == 0 then 1 else Times(base, Pow(base, n - 1))
  }

  lemma {:induction false} PowAdd(base: nat, m: nat, n: nat)
    ensures Pow(base, m + n) == Pow(base, m) * Pow(base, n)
  {
    if m != 0 {
      PowAdd(base, m - 1, n);
      Associate(base, Pow(base, m - 1), Pow(base, n));
    }
  }

  lemma PowUnfold(base: nat, n: nat)
    requires n > 0
    ensures Pow(base, n) == Times(base, Pow(base, n - 1)) == base * Pow(base, n - 1)
  {
  }

  lemma TimesMono(a: nat, b: nat, c: nat)
    requires b <= c
    ensures a * b <= a * c && b * a <= c * a
  {
  }

  lemma Associate(a: nat, b: nat, c: nat)
    ensures a * (b * c) == (a * b) * c
  {
  }

  lemma Distribute(a: nat, b: nat, c: nat)
    ensures (a + b) * c == a * c + b * c
  {
  }

  lemma Rotate(a: nat, b: nat, c: nat)
    ensures (a * b) * c == a * (c * b)
  {
  }

  function Quotient(m: nat, step: nat): nat
    requires step > 0
  {
    m / step
  }

  function Remainder(m: nat, step: nat): (r: nat)
    requires step > 0
    ensures r < step
  {
    m % step
  }

  lemma QuotientSplit(m: nat, step: nat)
    requires step > 0
    ensures Times(Quotient(m, step), step) + Remainder(m, step) == m
  {
  }

  lemma QuotientIs(m: nat, step: nat, q: nat, r: nat)
    requires step > 0 && r < step && m == Times(q, step) + r
    ensures Quotient(m, step) == q && Remainder(m, step) == r
  {
    hide Times;
    QuotientSplit(m, step);
    var q' := Quotient(m, step);
    if q < q' { TimesStep(q, q', step); } else if q' < q { TimesStep(q', q, step); }
  }

  lemma TimesStep(a: nat, b: nat, c: nat)
    requires a < b
    ensures Times(a, c) + c <= Times(b, c)
  {
    assert b * c == (b - a) * c + a * c;
    TimesMono(c, 1, b - a);
  }

  lemma TimesNext(q: nat, step: nat)
    ensures Times(q + 1, step) == Times(q, step) + step
  {
  }

  lemma TimesZero(b: nat)
    ensures Times(0, b) == 0
  {
  }

  lemma TimesDouble(a: nat, b: nat)
    ensures Times(2 * a, b) == 2 * Times(a, b)
  {
  }

  lemma TimesOrder(a: nat, b: nat, c: nat)
    requires a <= b
    ensures Times(a, c) <= Times(b, c)
  {
    TimesMono(c, a, b);
  }

  function Distance(a: int, b: int): nat {
    if a <= b then b - a else a - b
  }

  lemma DistanceScale(a: nat, b: nat, p: nat)
    ensures Distance(Times(a, p), Times(b, p)) == Times(Distance(a, b), p)
  {
    if a <= b { assert (b - a) * p == b * p - a * p; } else { assert (a - b) * p == a * p - b * p; }
  }

  lemma DistanceZero(a: nat)
    ensures Distance(0, 0) == 0 && (Distance(a, 0) == 0 ==> a == 0)
  {
  }

  lemma TimesCancel(a: nat, b: nat, p: nat)
    requires p > 0
    ensures a < b <==> Times(a, p) < Times(b, p)
    ensures a == b <==> Times(a, p) == Times(b, p)
  {
    hide Times;
    if a < b { TimesStep(a, b, p); } else if b < a { TimesStep(b, a, p); }
  }

  lemma Renormalise(a: nat, b: nat, c: nat)
    ensures Times(Times(a, b), Times(2, c)) == Times(Times(2 * a, b), c)
  {
    assert (2 * a) * b == 2 * (a * b);
    var ab := a * b;
    assert ab * (2 * c) == (2 * ab) * c;
  }

  lemma Regroup(c: nat, step: nat, a: nat, b: nat)
    ensures (c * step) * (a * b) == ((c * a) * step) * b
  {
    assert (c * step) * (a * b) == ((c * step) * a) * b;
    assert (c * step) * a == (c * a) * step by { Rotate(c, step, a); Rotate(c, a, step); assert step * a == a * step; }
  }

  lemma TimesTwice(a: nat, b: nat)
    ensures Times(a, Times(2, b)) == 2 * Times(a, b)
  {
    assert a * (2 * b) == 2 * (a * b);
  }

  lemma TimesMonoRight(a: nat, b: nat, c: nat)
    requires b <= c
    ensures Times(a, b) <= Times(a, c)
  {
    TimesMono(a, b, c);
  }

  lemma PowGrows(m: nat, n: nat)
    requires m <= n
    ensures Pow(2, m) <= Pow(2, n)
  {
    PowAdd(2, n - m, m);
    TimesMono(Pow(2, m), 1, Pow(2, n - m));
  }

  lemma FartherBelow(a: nat, b: nat, c: nat)
    requires a < b <= c
    ensures Distance(b, c) < Distance(a, c)
  {
  }

  lemma TimesSwap(a: nat, b: nat, c: nat)
    ensures Times(a, Times(b, c)) == Times(a, c) * b
  {
    Rotate(a, c, b);
  }

  lemma TimesOne(a: nat)
    ensures Times(a, 1) == a && Pow(16, 0) == 1
  {
  }

  lemma TimesCommute(a: nat, b: nat, c: nat)
    ensures Times(Times(a, b), c) == Times(Times(a, c), b)
  {
    Rotate(a, b, c);
    Rotate(a, c, b);
    assert c * b == b * c;
  }

  lemma TimesIs(a: nat, b: nat)
    ensures Times(a, b) == a * b
  {
  }

  lemma TimesPlus(lead: nat, p: nat, q: nat, unit: nat)
    requires lead < 2
    ensures Times(lead * p + q, unit) == lead * Times(p, unit) + Times(q, unit)
  {
    Distribute(lead * p, q, unit);
  }

  lemma Halves(h: nat)
    ensures Quotient(2 * h, 2) == h
  {
  }

  lemma TimesSpread(a: nat, p: nat, n: nat, radix: nat)
    ensures Times(Times(a, p) + n, radix) == Times(a, Times(radix, p)) + Times(n, radix)
  {
    var low := a * p;
    Distribute(low, n, radix);
    Rotate(a, p, radix);
  }
}
