/**
 * `Probability` (src/probability.rs): an exact rational in [0, 1].  The struct's single
 * field `ratio` is a reduced ratio; here the probability is that ratio, with the bound
 * as part of its type, so every value of type `Probability` satisfies 0 <= p <= 1.
 */
module Probabilities {
  import opened Rationals
  import Text

  type Probability = r: Rational | r.numer <= r.denom witness Ratio(0, 1)

  /** `PROBABILITY_ZERO`: the raw ratio 0/1. */
  const ZERO: Probability := Ratio(0, 1)

  /** `PROBABILITY_ONE`: the raw ratio 1/1. */
  const ONE: Probability := Ratio(1, 1)

  /** A reduced ratio with value at most one has numerator at most its denominator. */
  lemma AtMostOne(r: Rational)
    requires Value(r) <= 1.0
    ensures r.numer <= r.denom
  {
    var n, d := r.numer as real, r.denom as real;
    assert Value(r) * d == n;
  }

  /** Every probability lies in [0, 1]. */
  lemma Bounds(p: Probability)
    ensures 0.0 <= Value(p) <= 1.0
  {
    var n, d := p.numer as real, p.denom as real;
    assert Value(p) * d == n;
  }

  /** `Probability::from_ratio`: panics when the ratio exceeds one. */
  function FromRatio(r: Rational): (p: Probability)
    requires Value(r) <= 1.0
    ensures Value(p) == Value(r) && 0.0 <= Value(p)
  {
    AtMostOne(r);
    r
  }

  /**
   * `Probability::new(numerator, denominator)`: the reduced form of n/d.  It panics
   * when d == 0 (inside `Ratio::new`) and when n > d (in `from_ratio`).
   */
  function New(n: nat, d: nat): (p: Probability)
    requires d > 0 && n <= d
    ensures Value(p) == n as real / d as real
  {
    var r := NewRatio(n, d);
    assert n as real / d as real <= 1.0;
    FromRatio(r)
  }

  /** `Probability::ratio`: the probability's own reduced ratio, which is always within [0, 1]. */
  function RatioOf(p: Probability): (r: Rational)
    ensures r == p && Value(r) == Value(p)
    ensures r.numer <= r.denom
    ensures 0.0 <= Value(r) <= 1.0
  {
    Bounds(p);
    p
  }

  /** `Mul for Probability`: the exact product, which stays in [0, 1] without any check. */
  function Mul(p: Probability, q: Probability): (r: Probability)
    ensures Value(r) == Value(p) * Value(q)
  {
    MulInBounds(p, q);
    MulRatio(p, q)
  }

  lemma MulInBounds(p: Probability, q: Probability)
    ensures Value(MulRatio(p, q)) <= 1.0 && MulRatio(p, q).numer <= MulRatio(p, q).denom
  {
    Bounds(p);
    Bounds(q);
    ProductAtMostOne(Value(p), Value(q));
    AtMostOne(MulRatio(p, q));
  }

  /** The product's value is the product of the values, and it is at most either factor. */
  lemma MulValue(p: Probability, q: Probability)
    ensures Value(Mul(p, q)) == Value(p) * Value(q)
    ensures Value(Mul(p, q)) <= Value(p) && Value(Mul(p, q)) <= Value(q)
  {
    var a, b := Value(p), Value(q);
    assert Value(Mul(p, q)) == a * b;
    Bounds(p);
    Bounds(q);
    ProductAtMostOne(a, b);
  }

  /** Multiplying by the same probability keeps the order of values. */
  lemma MulNoLarger(p: Probability, a: Probability, b: Probability)
    requires Value(a) <= Value(b)
    ensures Value(Mul(p, a)) <= Value(Mul(p, b))
  {
    MulValue(p, a);
    MulValue(p, b);
    Bounds(p);
    ProductMonotone(Value(p), Value(a), Value(b), Value(Mul(p, a)), Value(Mul(p, b)));
  }

  /** Derived `Ord`: the strict order of the values. */
  function Less(p: Probability, q: Probability): (b: bool)
    ensures b <==> Value(p) < Value(q)
  {
    LessRatioIsValueOrder(p, q);
    LessRatio(p, q)
  }

  /** Derived `Eq` is equality of values: probabilities are equal iff their values are. */
  lemma EqualIffSameValue(p: Probability, q: Probability)
    ensures p == q <==> Value(p) == Value(q)
  {
    if Value(p) == Value(q) {
      ValueInjective(p, q);
    }
  }

  /** The order of probabilities is that of their values, and it is total. */
  lemma LessIsValueOrder(p: Probability, q: Probability)
    ensures Less(p, q) || p == q || Less(q, p)
  {
    EqualIffSameValue(p, q);
  }

  lemma ProductAtMostOne(a: real, b: real)
    requires 0.0 <= a <= 1.0 && 0.0 <= b <= 1.0
    ensures 0.0 <= a * b <= a && a * b <= b && a * b <= 1.0
  {
    assert a * b <= 1.0 * b;
    assert a * b <= a * 1.0;
  }

  lemma ProductMonotone(a: real, x: real, y: real, ax: real, ay: real)
    requires 0.0 <= a && x <= y && ax == a * x && ay == a * y
    ensures ax <= ay
  {
  }

  lemma ProductAssociative(a: real, b: real, c: real, ab: real, bc: real)
    requires ab == a * b && bc == b * c
    ensures ab * c == a * bc
  {
  }

  /** Multiplication is associative on probabilities. */
  lemma MulAssociative(p: Probability, q: Probability, s: Probability)
    ensures Mul(Mul(p, q), s) == Mul(p, Mul(q, s))
  {
    TripleLeft(p, q, s);
    TripleRight(p, q, s);
    SameValue(Mul(Mul(p, q), s), Mul(p, Mul(q, s)), Value(p) * Value(q) * Value(s));
  }

  lemma TripleLeft(p: Probability, q: Probability, s: Probability)
    ensures Value(Mul(Mul(p, q), s)) == Value(p) * Value(q) * Value(s)
  {
    MulValue(p, q);
    MulValue(Mul(p, q), s);
  }

  lemma TripleRight(p: Probability, q: Probability, s: Probability)
    ensures Value(Mul(p, Mul(q, s))) == Value(p) * Value(q) * Value(s)
  {
    MulValue(q, s);
    MulValue(p, Mul(q, s));
    ProductAssociative(Value(p), Value(q), Value(s), Value(p) * Value(q), Value(Mul(q, s)));
  }

  /** Multiplication is commutative on probabilities. */
  lemma MulCommutative(p: Probability, q: Probability)
    ensures Mul(p, q) == Mul(q, p)
  {
    MulValue(p, q);
    MulValue(q, p);
    SameValue(Mul(p, q), Mul(q, p), Value(p) * Value(q));
  }

  lemma SameValue(x: Probability, y: Probability, v: real)
    requires Value(x) == v && Value(y) == v
    ensures x == y
  {
    EqualIffSameValue(x, y);
  }

  /** One is neutral, zero absorbs. */
  lemma MulUnits(p: Probability)
    ensures Mul(ONE, p) == p && Mul(p, ONE) == p
    ensures Mul(ZERO, p) == ZERO && Mul(p, ZERO) == ZERO
  {
    MulValue(ONE, p);
    MulValue(p, ONE);
    MulValue(ZERO, p);
    MulValue(p, ZERO);
    EqualIffSameValue(Mul(ONE, p), p);
    EqualIffSameValue(Mul(p, ONE), p);
    EqualIffSameValue(Mul(ZERO, p), ZERO);
    EqualIffSameValue(Mul(p, ZERO), ZERO);
  }

  /** `Display for Ratio`: "n" when the denominator is one, otherwise "n/d". */
  function ToString(p: Probability): (s: string)
    ensures |s| > 0
    ensures forall i :: 0 <= i < |s| ==> '0' <= s[i] <= '9' || s[i] == '/'
    ensures '/' in s <==> p.denom != 1
  {
    if p.denom == 1 then Text.NatToString(p.numer)
    else Text.NatToString(p.numer) + "/" + Text.NatToString(p.denom)
  }

  /** Different probabilities are written differently. */
  lemma ToStringInjective(p: Probability, q: Probability)
    requires ToString(p) == ToString(q)
    ensures p == q
  {
    var pn, pd := Text.NatToString(p.numer), Text.NatToString(p.denom);
    var qn, qd := Text.NatToString(q.numer), Text.NatToString(q.denom);
    if p.denom == 1 && q.denom == 1 {
      Text.NatToStringInjective(p.numer, q.numer);
    } else if p.denom != 1 && q.denom != 1 {
      Text.DigitsThen(pn, pd, qn, qd, '/');
      Text.NatToStringInjective(p.numer, q.numer);
      Text.NatToStringInjective(p.denom, q.denom);
    }
  }

  /** The unit tests of src/probability.rs, as exact facts. */
  lemma Examples()
    ensures ZERO == NewRatio(0, 1) && ONE == NewRatio(1, 1)
    ensures New(0, 2) == Ratio(0, 1) && New(1, 2) == Ratio(1, 2) && New(2, 2) == Ratio(1, 1)
    ensures FromRatio(NewRatio(0, 7)) == Ratio(0, 1)
    ensures FromRatio(NewRatio(4, 9)) == Ratio(4, 9)
    ensures FromRatio(NewRatio(9, 9)) == Ratio(1, 1)
    ensures New(1, 4) == New(2, 8) && New(1, 4) != ZERO && New(1, 4) != ONE
    ensures Less(New(1, 3), New(4, 7)) && Less(New(4, 7), New(8, 9)) && Less(New(1, 3), New(8, 9))
  {
    ValueInjective(ZERO, NewRatio(0, 1));
    ValueInjective(ONE, NewRatio(1, 1));
    ValueInjective(New(0, 2), Ratio(0, 1));
    ValueInjective(New(1, 2), Ratio(1, 2));
    ValueInjective(New(2, 2), Ratio(1, 1));
    ValueInjective(NewRatio(0, 7), Ratio(0, 1));
    ValueInjective(NewRatio(4, 9), Ratio(4, 9));
    ValueInjective(NewRatio(9, 9), Ratio(1, 1));
    ValueInjective(New(1, 4), New(2, 8));
    LessIsValueOrder(New(1, 3), New(4, 7));
    LessIsValueOrder(New(4, 7), New(8, 9));
    LessIsValueOrder(New(1, 3), New(8, 9));
  }
}
