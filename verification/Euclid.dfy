/** Greatest common factor, least common multiple and reduced fractions, on integers of either sign. */
module Euclid {
  import opened Arithmetic

  function Abs(a: int): nat {
    if a < 0 then -a else a
  }

  /** Python's integer division rounds down, whatever the signs. */
  function FloorDiv(a: int, b: int): int
    requires b != 0
  {
    if b > 0 then a / b else (-a) / (-b)
  }

  /** Python's remainder has the sign of the divisor. */
  function Mod(a: int, b: int): int
    requires b != 0
  {
    a - b * FloorDiv(a, b)
  }

  lemma ModRange(a: int, b: int)
    requires b != 0
    ensures b > 0 ==> 0 <= Mod(a, b) < b
    ensures b < 0 ==> b < Mod(a, b) <= 0
  {
    if b < 0 {
      assert -a == (-b) * ((-a) / (-b)) + (-a) % (-b);
    }
  }

  predicate IsTimes(n: int, d: int, k: int) {
    n == d * k
  }

  ghost predicate Divides(d: int, n: int) {
    exists k :: IsTimes(n, d, k)
  }

  /** The one number, not negative, that divides both and is divided by everything that divides both. */
  ghost predicate IsGcf(g: int, a: int, b: int) {
    && g >= 0
    && Divides(g, a) && Divides(g, b)
    && forall d :: Divides(d, a) && Divides(d, b) ==> Divides(d, g)
  }

  /** A common multiple that divides every common multiple. */
  ghost predicate IsLcm(l: int, a: int, b: int) {
    && Divides(a, l) && Divides(b, l)
    && forall m :: Divides(a, m) && Divides(b, m) ==> Divides(l, m)
  }

  // ---------------------------------------------------------------- divisibility

  lemma TimesSum(d: int, k: int, l: int, x: int, y: int)
    ensures d * k * x + d * l * y == d * (k * x + l * y)
  {}

  lemma DividesCombination(d: int, a: int, b: int, x: int, y: int)
    requires Divides(d, a) && Divides(d, b)
    ensures Divides(d, a * x + b * y)
  {
    var k :| IsTimes(a, d, k);
    var l :| IsTimes(b, d, l);
    TimesSum(d, k, l, x, y);
    assert IsTimes(a * x + b * y, d, k * x + l * y);
  }

  lemma DividesSum(d: int, a: int, b: int, q: int)
    requires Divides(d, b)
    ensures Divides(d, a - b * q) <==> Divides(d, a)
  {
    if Divides(d, a) {
      DividesCombination(d, a, b, 1, -q);
      assert a * 1 + b * -q == a - b * q;
    }
    if Divides(d, a - b * q) {
      DividesCombination(d, a - b * q, b, 1, q);
      assert (a - b * q) * 1 + b * q == a;
    }
  }

  lemma DividesAbs(d: int, n: int)
    ensures Divides(d, Abs(n)) <==> Divides(d, n)
  {
    if Divides(d, n) {
      var k :| IsTimes(n, d, k);
      assert IsTimes(-n, d, -k);
    }
    if Divides(d, Abs(n)) {
      var k :| IsTimes(Abs(n), d, k);
      assert IsTimes(n, d, if n < 0 then -k else k);
    }
  }

  lemma AbsDivides(d: int, n: int)
    requires Divides(d, n)
    ensures Divides(Abs(d), n)
  {
    var k :| IsTimes(n, d, k);
    assert IsTimes(n, Abs(d), if d < 0 then -k else k);
  }

  /** The pairs (a, b) and (b, a mod b) have the same common divisors. */
  ghost predicate SameDivisors(a: int, b: int, c: int, d: int) {
    forall e :: Divides(e, a) && Divides(e, b) <==> Divides(e, c) && Divides(e, d)
  }

  lemma ModKeepsDivisors(a: int, b: int)
    requires b != 0
    ensures SameDivisors(a, b, b, Mod(a, b))
  {
    forall e
      ensures Divides(e, a) && Divides(e, b) <==> Divides(e, b) && Divides(e, Mod(a, b))
    {
      if Divides(e, b) {
        DividesSum(e, a, b, FloorDiv(a, b));
      }
    }
  }

  lemma DividesZero(r: int)
    ensures Divides(r, 0) && Divides(r, r) && Divides(Abs(r), r)
  {
    assert IsTimes(0, r, 0) && IsTimes(r, r, 1);
    AbsDivides(r, r);
  }

  lemma EndOfEuclid(a: int, b: int, r: int)
    requires SameDivisors(a, b, r, 0)
    ensures IsGcf(Abs(r), a, b)
  {
    DividesZero(r);
    DividesZero(Abs(r));
    forall d | Divides(d, a) && Divides(d, b)
      ensures Divides(d, Abs(r))
    {
      DividesAbs(d, r);
    }
    assert Divides(Abs(r), 0) by {
      assert IsTimes(0, Abs(r), 0);
    }
  }

  // ---------------------------------------------------------------- gcf

  predicate Combines(n: int, a: int, b: int, x: int, y: int) {
    n == a * x + b * y
  }

  /** A whole-number combination of a and b. */
  ghost predicate IsCombination(n: int, a: int, b: int) {
    exists x, y :: Combines(n, a, b, x, y)
  }

  lemma CombinationStep(a: int, b: int, x: int, y: int, v: int, w: int, q: int)
    ensures (a * x + b * y) - (a * v + b * w) * q == a * (x - v * q) + b * (y - w * q)
  {}

  lemma ModIsCombination(a: int, b: int, m: int, n: int)
    requires n != 0 && IsCombination(m, a, b) && IsCombination(n, a, b)
    ensures IsCombination(Mod(m, n), a, b)
  {
    var x, y :| Combines(m, a, b, x, y);
    var v, w :| Combines(n, a, b, v, w);
    var q := FloorDiv(m, n);
    CombinationStep(a, b, x, y, v, w, q);
    assert Combines(Mod(m, n), a, b, x - v * q, y - w * q);
  }

  lemma AbsIsCombination(n: int, a: int, b: int)
    requires IsCombination(n, a, b)
    ensures IsCombination(Abs(n), a, b)
  {
    var x, y :| Combines(n, a, b, x, y);
    if n < 0 {
      assert Combines(-n, a, b, -x, -y);
    }
  }

  lemma BothAreCombinations(a: int, b: int)
    ensures IsCombination(a, a, b) && IsCombination(b, a, b)
  {
    assert Combines(a, a, b, 1, 0) && Combines(b, a, b, 0, 1);
  }

  /** gcf: Euclid's algorithm with Python's remainder ends for all integers and gives the greatest common factor,
      which is a combination of the two numbers. */
  method Gcf(a: int, b: int) returns (g: int)
    ensures IsGcf(g, a, b) && IsCombination(g, a, b)
    ensures g == 0 <==> a == 0 && b == 0
  {
    var result := if a >= b then a else b;
    var remainder := if a <= b then a else b;
    BothAreCombinations(a, b);
    while remainder != 0
      invariant SameDivisors(a, b, result, remainder)
      invariant IsCombination(result, a, b) && IsCombination(remainder, a, b)
      invariant result == 0 && remainder == 0 <==> a == 0 && b == 0
      decreases Abs(remainder)
    {
      ModRange(result, remainder);
      ModKeepsDivisors(result, remainder);
      ModIsCombination(a, b, result, remainder);
      var newRemainder := Mod(result, remainder);
      result := remainder;
      remainder := newRemainder;
    }
    EndOfEuclid(a, b, result);
    AbsIsCombination(result, a, b);
    g := Abs(result);
  }

  lemma GcfUnique(g: int, h: int, a: int, b: int)
    requires IsGcf(g, a, b) && IsGcf(h, a, b)
    ensures g == h
  {
    var k :| IsTimes(g, h, k);
    var l :| IsTimes(h, g, l);
    NaturalMultiple(g, h, k);
    NaturalMultiple(h, g, l);
  }

  lemma NaturalMultiple(g: int, h: int, k: int)
    requires g >= 0 && h >= 0 && IsTimes(g, h, k)
    ensures g > 0 ==> h <= g
    ensures h == 0 ==> g == 0
  {
    if k <= 0 {
      assert h * k <= 0;
    }
  }

  // ---------------------------------------------------------------- lcm and reduce_fraction

  /** Dividing out a positive common factor leaves two numbers with a combination equal to one. */
  lemma DivideOut(g: int, a: int, b: int) returns (p: int, q: int, x: int, y: int)
    requires g > 0 && IsGcf(g, a, b) && IsCombination(g, a, b)
    ensures p == FloorDiv(a, g) && q == FloorDiv(b, g)
    ensures a == g * p && b == g * q && p * x + q * y == 1
  {
    p := Quotient(a, g);
    q := Quotient(b, g);
    x, y :| Combines(g, a, b, x, y);
    CancelFactor(g, p, q, x, y);
  }

  lemma Quotient(a: int, g: int) returns (p: int)
    requires g > 0 && Divides(g, a)
    ensures p == FloorDiv(a, g) && a == g * p
  {
    p :| IsTimes(a, g, p);
    Cancel(g, p, a / g, a % g);
  }

  lemma Cancel(g: int, p: int, q: int, r: int)
    requires 0 <= r < g && g * p == g * q + r
    ensures p == q
  {
    UniqueQuotient(g, p, q, r, 0);
  }

  lemma CancelFactor(g: int, p: int, q: int, x: int, y: int)
    requires g > 0 && g == g * p * x + g * q * y
    ensures p * x + q * y == 1
  {
    TimesSum(g, p, q, x, y);
    Cancel(g, 1, p * x + q * y, 0);
  }

  lemma AbsProduct(a: int, b: int)
    ensures Abs(a * b) == Abs(a) * Abs(b)
  {}

  lemma Regroup(g: int, p: int, q: int)
    ensures g * p * q == g * q * p && g * p * (g * q) == g * (g * p * q)
  {}

  lemma CommonMultiple(g: int, p: int, q: int, x: int, y: int, m: int)
    requires p * x + q * y == 1 && Divides(g * p, m) && Divides(g * q, m)
    ensures Divides(g * p * q, m)
  {
    var u :| IsTimes(m, g * p, u);
    var v :| IsTimes(m, g * q, v);
    var l := g * p * q;
    assert m * p == l * v by { assert g * q * v * p == l * v; }
    assert m * q == l * u;
    assert m == (m * p) * x + (m * q) * y by { assert m * (p * x + q * y) == m * p * x + m * q * y; }
    TimesSum(l, v, u, x, y);
    assert IsTimes(m, l, v * x + u * y);
  }

  lemma IsLeast(g: int, p: int, q: int, x: int, y: int)
    requires p * x + q * y == 1
    ensures IsLcm(g * p * q, g * p, g * q)
  {
    Regroup(g, p, q);
    assert IsTimes(g * p * q, g * p, q) && IsTimes(g * p * q, g * q, p);
    forall m | Divides(g * p, m) && Divides(g * q, m)
      ensures Divides(g * p * q, m)
    {
      CommonMultiple(g, p, q, x, y, m);
    }
  }

  lemma NothingDividesButZero()
    ensures IsLcm(0, 0, 0)
  {
    assert IsTimes(0, 0, 0);
  }

  /** lcm: the least common multiple, up to its sign, which is that of the product of the two numbers. */
  method Lcm(a: int, b: int) returns (l: int)
    ensures IsLcm(l, a, b)
    ensures forall g :: IsGcf(g, a, b) ==> g * l == a * b && g * Abs(l) == Abs(a * b)
  {
    var denom := Gcf(a, b);
    if denom == 0 {
      l := 0;
      NothingDividesButZero();
    } else {
      l := a * FloorDiv(b, denom);
      ghost var p, q, x, y := DivideOut(denom, a, b);
      IsLeast(denom, p, q, x, y);
      Regroup(denom, p, q);
      AbsProduct(denom, l);
    }
    forall g | IsGcf(g, a, b)
      ensures g == denom
    {
      GcfUnique(g, denom, a, b);
    }
  }

  datatype Fraction = Fraction(numerator: int, denominator: int)
  datatype Result = Reduced(fraction: Fraction) | ZeroDivisionError

  /** Equal fractions, by cross multiplication. */
  ghost predicate SameRatio(f: Fraction, g: Fraction) {
    f.numerator * g.denominator == f.denominator * g.numerator
  }

  /** Whatever has the ratio of this fraction is this fraction with both parts multiplied by one number. */
  ghost predicate IsSimplest(f: Fraction) {
    forall g :: SameRatio(f, g) ==>
      exists k :: IsTimes(g.numerator, f.numerator, k) && IsTimes(g.denominator, f.denominator, k)
  }

  lemma CoprimeIsSimplest(f: Fraction, x: int, y: int)
    requires f.numerator * x + f.denominator * y == 1
    ensures IsSimplest(f) && IsGcf(1, f.numerator, f.denominator)
  {
    var p, q := f.numerator, f.denominator;
    forall g | SameRatio(f, g)
      ensures exists k :: IsTimes(g.numerator, p, k) && IsTimes(g.denominator, q, k)
    {
      Multiplier(p, q, x, y, g.numerator, g.denominator);
      assert IsTimes(g.numerator, p, g.numerator * x + g.denominator * y);
      assert IsTimes(g.denominator, q, g.numerator * x + g.denominator * y);
    }
    assert IsTimes(p, 1, p) && IsTimes(q, 1, q);
    forall d | Divides(d, p) && Divides(d, q)
      ensures Divides(d, 1)
    {
      DividesCombination(d, p, q, x, y);
    }
  }

  lemma Multiplier(p: int, q: int, x: int, y: int, m: int, n: int)
    requires p * x + q * y == 1 && p * n == q * m
    ensures m == p * (m * x + n * y) && n == q * (m * x + n * y)
  {
    assert p * (m * x + n * y) == m * (p * x) + (p * n) * y;
    assert (q * m) * y == m * (q * y);
    assert m * (p * x) + m * (q * y) == m * (p * x + q * y);
    assert q * (m * x + n * y) == (q * m) * x + n * (q * y);
    assert (p * n) * x == n * (p * x);
    assert n * (p * x) + n * (q * y) == n * (p * x + q * y);
  }

  /** reduce_fraction: the simplest form, with the signs of the input; a division by zero exactly for 0/0. */
  method ReduceFraction(f: Fraction) returns (r: Result)
    ensures r == ZeroDivisionError <==> f == Fraction(0, 0)
    ensures r.Reduced? ==>
              && IsGcf(1, r.fraction.numerator, r.fraction.denominator) && IsSimplest(r.fraction)
              && SameRatio(f, r.fraction)
              && forall g :: IsGcf(g, f.numerator, f.denominator) ==>
                             f == Fraction(g * r.fraction.numerator, g * r.fraction.denominator)
  {
    var gcf := Gcf(f.numerator, f.denominator);
    var commonFactor := Abs(gcf);
    if commonFactor == 0 {
      return ZeroDivisionError;
    }
    ghost var p, q, x, y := DivideOut(commonFactor, f.numerator, f.denominator);
    var fraction := Fraction(FloorDiv(f.numerator, commonFactor), FloorDiv(f.denominator, commonFactor));
    CoprimeIsSimplest(fraction, x, y);
    Regroup(commonFactor, p, q);
    forall g | IsGcf(g, f.numerator, f.denominator)
      ensures g == commonFactor
    {
      GcfUnique(g, commonFactor, f.numerator, f.denominator);
    }
    r := Reduced(fraction);
  }
}
