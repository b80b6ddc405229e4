/**
 * `BinomialCoefficient` of src/binomial_coefficient.rs: "n over k", a validated pair
 * with k <= n.  `new` panics on k > n, `try_new` answers None instead.
 */
module BinomialCoefficients {

  datatype Option<T> = None | Some(value: T)

  datatype BinomialCoefficient = BinomialCoefficient(n: nat, k: nat)
  {
    /** The accessor `n()`. */
    function N(): nat
    {
      n
    }

    /** The accessor `k()`. */
    function K(): nat
    {
      k
    }
  }

  /** What every coefficient built by `new` or `try_new` satisfies. */
  predicate Valid(b: BinomialCoefficient)
  {
    b.k <= b.n
  }

  /** `BinomialCoefficient::new`; the source asserts n >= k and panics otherwise. */
  function New(n: nat, k: nat): (b: BinomialCoefficient)
    requires n >= k
    ensures b.N() == n && b.K() == k
    ensures Valid(b)
  {
    BinomialCoefficient(n, k)
  }

  /** `BinomialCoefficient::try_new`: a coefficient exactly when n >= k. */
  function TryNew(n: nat, k: nat): (r: Option<BinomialCoefficient>)
    ensures r.Some? <==> n >= k
    ensures r.Some? ==> r.value.N() == n && r.value.K() == k && Valid(r.value)
  {
    if n >= k then Some(BinomialCoefficient(n, k)) else None
  }

  /** Where both succeed, `new` and `try_new` build the same coefficient. */
  lemma NewIsTryNew(n: nat, k: nat)
    requires n >= k
    ensures TryNew(n, k) == Some(New(n, k))
  {
  }

  /** The derived `Default`: 0 over 0, which is valid too. */
  function Default(): (b: BinomialCoefficient)
    ensures b.N() == 0 && b.K() == 0 && Valid(b)
  {
    BinomialCoefficient(0, 0)
  }
}
