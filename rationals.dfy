/**
 * Exact non-negative rationals in the reduced form kept by `num_rational::Ratio<u64>`:
 * a numerator and a positive denominator with no common factor.  Because every value
 * has exactly one such representation, structural equality of the pair is equality of
 * the rational numbers (lemma `ValueInjective`).
 */
module Rationals {

  /** Greatest common divisor by Euclid's algorithm; Gcd(a, 0) == a. */
  function Gcd(a: nat, b: nat): nat
    decreases b
  {
    if b == 0 then a else Gcd(b, a % b)
  }

  /** A numerator/denominator pair, not necessarily reduced. */
  datatype Ratio = Ratio(numer: nat, denom: nat)

  /** k is a positive divisor of n. */
  predicate Divides(k: nat, n: nat)
  {
    k > 0 && n % k == 0
  }

  /** A positive denominator, and no common divisor of the two parts other than one. */
  ghost predicate Reduced(r: Ratio)
  {
    r.denom > 0 && forall k :: Divides(k, r.numer) && Divides(k, r.denom) ==> k == 1
  }

  /** A reduced ratio, the invariant `Ratio::new` establishes. */
  type Rational = r: Ratio | Reduced(r) witness Ratio(0, 1)

  /** The rational number a ratio with a positive denominator stands for. */
  function Value(r: Ratio): real
    requires r.denom > 0
  {
    r.numer as real / r.denom as real
  }

  // ---------------------------------------------------------------------------
  // Division facts

  /** k * y >= y for k >= 1 and y >= 0. */
  lemma {:induction false} MulAtLeast(k: int, y: int)
    requires k >= 1 && y >= 0
    ensures k * y >= y
    decreases k
  {
    if k > 1 {
      MulAtLeast(k - 1, y);
      assert k * y == (k - 1) * y + y;
    }
  }

  lemma DivModUnique(x: int, y: int, q: int, r: int)
    requires y > 0 && x == q * y + r && 0 <= r < y
    ensures x / y == q && x % y == r
  {
    var q', r' := x / y, x % y;
    assert x == q' * y + r';
    assert (q - q') * y == r' - r;
    if q > q' {
      MulAtLeast(q - q', y);
    } else if q < q' {
      MulAtLeast(q' - q, y);
    }
  }

  lemma MultipleMod(m: int, c: int)
    requires c > 0
    ensures (m * c) % c == 0 && (m * c) / c == m
  {
    DivModUnique(m * c, c, m, 0);
  }

  /** A combination of two multiples of c is a multiple of c. */
  lemma CombinationMod(x: int, y: int, a: int, b: int, c: int)
    requires c > 0 && x % c == 0 && y % c == 0
    ensures (a * x + b * y) % c == 0
  {
    var i, j := x / c, y / c;
    assert x == i * c && y == j * c;
    calc {
      a * x + b * y;
      a * (i * c) + b * (j * c);
      (a * i + b * j) * c;
    }
    MultipleMod(a * i + b * j, c);
  }

  /** A positive multiple of d is at least d. */
  lemma MultipleAtLeast(n: nat, d: nat)
    requires d > 0 && n > 0 && n % d == 0
    ensures d <= n
  {
    var k := n / d;
    assert n == k * d;
    assert k >= 1;
    assert (k - 1) * d >= 0;
  }

  // ---------------------------------------------------------------------------
  // Gcd facts

  lemma {:induction false} GcdDivides(a: nat, b: nat)
    requires a > 0 || b > 0
    ensures Gcd(a, b) > 0 && a % Gcd(a, b) == 0 && b % Gcd(a, b) == 0
    decreases b
  {
    if b == 0 {
      MultipleMod(1, a);
    } else {
      GcdDivides(b, a % b);
      var g := Gcd(b, a % b);
      assert a == (a / b) * b + a % b;
      CombinationMod(b, a % b, a / b, 1, g);
    }
  }

  /** Every common divisor of a and b divides Gcd(a, b). */
  lemma {:induction false} GcdGreatest(a: nat, b: nat, c: nat)
    requires c > 0 && a % c == 0 && b % c == 0
    ensures Gcd(a, b) % c == 0
    decreases b
  {
    if b != 0 {
      var q, r := a / b, a % b;
      assert r == 1 * a + (-q) * b;
      CombinationMod(a, b, 1, -q, c);
      GcdGreatest(b, r, c);
    }
  }

  /** Gcd(a * c, b * c) == Gcd(a, b) * c. */
  lemma {:induction false} GcdScale(a: nat, b: nat, c: nat)
    ensures Gcd(a * c, b * c) == Gcd(a, b) * c
    decreases b
  {
    if c == 0 {
      assert a * c == 0 && b * c == 0;
    } else if b == 0 {
      assert b * c == 0;
    } else {
      var q, r := a / b, a % b;
      assert a * c == q * (b * c) + r * c by {
        assert a == q * b + r;
      }
      assert r * c < b * c by {
        assert (b - r) * c > 0;
      }
      DivModUnique(a * c, b * c, q, r * c);
      GcdScale(b, r, c);
    }
  }

  /** Euclid's lemma: a divisor of x * c that is coprime to x divides c. */
  lemma EuclidDivides(x: nat, y: nat, c: nat)
    requires Reduced(Ratio(x, y)) && (x * c) % y == 0
    ensures c % y == 0
  {
    ReducedIffGcdOne(Ratio(x, y));
    GcdScale(x, y, c);
    MultipleMod(c, y);
    assert (y * c) % y == 0;
    GcdGreatest(x * c, y * c, y);
  }

  // ---------------------------------------------------------------------------
  // Construction, value, equality

  /** Cancelling a common positive factor does not change the value. */
  lemma CancelFactor(p: nat, q: nat, g: nat)
    requires q > 0 && g > 0
    ensures (p * g) as real / (q * g) as real == p as real / q as real
  {
    var pr, qr, gr := p as real, q as real, g as real;
    assert (p * g) as real == pr * gr && (q * g) as real == qr * gr;
    assert (pr * gr) / (qr * gr) == pr / qr;
  }

  lemma ExactQuotient(n: nat, g: nat)
    requires g > 0 && n % g == 0
    ensures n == (n / g) * g
  {
  }

  /** The quotient pair of n and d by Gcd(n, d) is reduced and keeps the value. */
  lemma ReduceByGcd(n: nat, d: nat)
    requires d > 0
    ensures Gcd(n, d) > 0
    ensures Reduced(Ratio(n / Gcd(n, d), d / Gcd(n, d)))
    ensures Value(Ratio(n / Gcd(n, d), d / Gcd(n, d))) == n as real / d as real
  {
    GcdDivides(n, d);
    var g := Gcd(n, d);
    var p, q := n / g, d / g;
    ExactQuotient(n, g);
    ExactQuotient(d, g);
    assert q > 0;
    GcdScale(p, q, g);
    var h := Gcd(p, q);
    assert h * g == g;
    MulOneFactor(h, g);
    CancelFactor(p, q, g);
    ReducedIffGcdOne(Ratio(p, q));
  }

  /** Being reduced is having greatest common divisor one. */
  lemma ReducedIffGcdOne(r: Ratio)
    requires r.denom > 0
    ensures Reduced(r) <==> Gcd(r.numer, r.denom) == 1
  {
    GcdDivides(r.numer, r.denom);
    var g := Gcd(r.numer, r.denom);
    assert Divides(g, r.numer) && Divides(g, r.denom);
    if g == 1 {
      forall k | Divides(k, r.numer) && Divides(k, r.denom) ensures k == 1 {
        GcdGreatest(r.numer, r.denom, k);
        MultipleAtLeast(1, k);
      }
    }
  }

  lemma MulOneFactor(h: int, g: int)
    requires g > 0 && h * g == g
    ensures h == 1
  {
    assert (h - 1) * g == 0;
  }

  /** `Ratio::new(numerator, denominator)`: the reduced form of n/d (panics when d == 0). */
  function NewRatio(n: nat, d: nat): (r: Rational)
    requires d > 0
    ensures Value(r) == n as real / d as real
  {
    ReduceByGcd(n, d);
    Ratio(n / Gcd(n, d), d / Gcd(n, d))
  }

  /** Two reduced ratios with the same value are the same pair. */
  lemma ValueInjective(a: Rational, b: Rational)
    requires Value(a) == Value(b)
    ensures a == b
  {
    CrossMultiply(a, b);
    var an, ad, bn, bd := a.numer, a.denom, b.numer, b.denom;
    assert an * bd == bn * ad;
    MultipleMod(bn, ad);
    assert (an * bd) % ad == 0;
    EuclidDivides(an, ad, bd);
    MultipleMod(an, bd);
    assert (bn * ad) % bd == 0;
    EuclidDivides(bn, bd, ad);
    MultipleAtLeast(bd, ad);
    MultipleAtLeast(ad, bd);
    assert ad == bd;
    assert an * bd == bn * bd;
  }

  /** Equal values means equal cross products. */
  lemma CrossMultiply(a: Ratio, b: Ratio)
    requires a.denom > 0 && b.denom > 0
    ensures Value(a) == Value(b) <==> a.numer * b.denom == b.numer * a.denom
  {
    var an, ad, bn, bd := a.numer as real, a.denom as real, b.numer as real, b.denom as real;
    var va, vb := Value(a), Value(b);
    assert va * ad == an;
    assert vb * bd == bn;
    assert va * (ad * bd) == an * bd;
    assert vb * (ad * bd) == bn * ad;
    assert (a.numer * b.denom) as real == an * bd;
    assert (b.numer * a.denom) as real == bn * ad;
    CancelPositive(va, vb, ad * bd);
  }

  lemma CancelPositive(x: real, y: real, k: real)
    requires k > 0.0
    ensures x == y <==> x * k == y * k
  {
    if x * k == y * k {
      assert (x - y) * k == 0.0;
    }
  }

  lemma ProductValue(an: nat, ad: nat, bn: nat, bd: nat)
    requires ad > 0 && bd > 0
    ensures (an * bn) as real / (ad * bd) as real
         == (an as real / ad as real) * (bn as real / bd as real)
  {
    var x, y, z, w := an as real, ad as real, bn as real, bd as real;
    assert (an * bn) as real == x * z && (ad * bd) as real == y * w;
    assert (x * z) / (y * w) == (x / y) * (z / w);
  }

  /** Exact product, reduced (`Mul for Ratio`). */
  function MulRatio(a: Rational, b: Rational): (r: Rational)
    ensures Value(r) == Value(a) * Value(b)
  {
    ProductValue(a.numer, a.denom, b.numer, b.denom);
    NewRatio(a.numer * b.numer, a.denom * b.denom)
  }

  /** Strict order by value, decided by cross multiplication (`Ord for Ratio`). */
  predicate LessRatio(a: Rational, b: Rational)
  {
    a.numer * b.denom < b.numer * a.denom
  }

  lemma LessRatioIsValueOrder(a: Rational, b: Rational)
    ensures LessRatio(a, b) <==> Value(a) < Value(b)
  {
    var an, ad, bn, bd := a.numer as real, a.denom as real, b.numer as real, b.denom as real;
    assert Value(a) * ad * bd == an * bd;
    assert Value(b) * ad * bd == bn * ad;
    assert (a.numer * b.denom) as real == an * bd;
    assert (b.numer * a.denom) as real == bn * ad;
  }
}
