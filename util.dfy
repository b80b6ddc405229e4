/**
 * `factorial` of src/util.rs: a lookup table for 0 to 20 and the recursive step
 * n * (n - 1)! beyond it.  The source computes in `u64`; the model uses unbounded
 * naturals and shows where the source's product leaves the `u64` range.
 */
module Util {

  /** The largest `u64`. */
  const U64Max: nat := 0xFFFF_FFFF_FFFF_FFFF

  /** `factorial(n)`: the table entry for n <= 20, else n * factorial(n - 1). */
  function Factorial(n: nat): (r: nat)
    ensures r >= 1
  {
    match n
    case 0 => 1
    case 1 => 1
    case 2 => 2
    case 3 => 6
    case 4 => 24
    case 5 => 120
    case 6 => 720
    case 7 => 5040
    case 8 => 40320
    case 9 => 362880
    case 10 => 3628800
    case 11 => 39916800
    case 12 => 479001600
    case 13 => 6227020800
    case 14 => 87178291200
    case 15 => 1307674368000
    case 16 => 20922789888000
    case 17 => 355687428096000
    case 18 => 6402373705728000
    case 19 => 121645100408832000
    case 20 => 2432902008176640000
    case _ => n * Factorial(n - 1)
  }

  /** The definition the documentation gives: n! = n * (n - 1)!, 1! = 0! = 1. */
  function Fact(n: nat): nat
  {
    if n <= 1 then 1 else n * Fact(n - 1)
  }

  /** Each table entry from 2 to 20 is n times the entry before it. */
  lemma TableStep(n: nat)
    requires 2 <= n <= 20
    ensures Factorial(n) == n * Factorial(n - 1)
  {
  }

  /** Hence `factorial(n) == n * factorial(n - 1)` for every n >= 2, table or not. */
  lemma FactorialStep(n: nat)
    requires n >= 2
    ensures Factorial(n) == n * Factorial(n - 1)
  {
    if n <= 20 {
      TableStep(n);
    }
  }

  /** The table agrees with the definition the documentation gives. */
  lemma {:induction false} FactorialIsFact(n: nat)
    ensures Factorial(n) == Fact(n)
  {
    if n >= 2 {
      FactorialStep(n);
      FactorialIsFact(n - 1);
    }
  }

  /** The values the unit test checks. */
  lemma FactorialTestValues()
    ensures Factorial(0) == 1 && Factorial(1) == 1 && Factorial(2) == 2 && Factorial(3) == 6
    ensures Factorial(4) == 24 && Factorial(5) == 120 && Factorial(6) == 720
    ensures Factorial(7) == 5040 && Factorial(8) == 40320 && Factorial(9) == 362880
  {
  }

  /** Every table entry fits a `u64`; from 21 on the product does not. */
  lemma {:induction false} FactorialU64Range(n: nat)
    ensures n <= 20 ==> Factorial(n) <= U64Max
    ensures n >= 21 ==> Factorial(n) > U64Max
  {
    if n >= 21 {
      FactorialBeyondTable(n);
    } else {
      TableMonotone(n);
    }
  }

  lemma TableMonotone(n: nat)
    requires n <= 20
    ensures Factorial(n) <= Factorial(20)
  {
  }

  lemma {:induction false} FactorialBeyondTable(n: nat)
    requires n >= 21
    ensures Factorial(n) > U64Max
  {
    if n > 21 {
      FactorialBeyondTable(n - 1);
    }
  }
}
