/**
  The arbitrary-precision natural numbers that the root search works on.

  A `NaturalNumber` object holds one unbounded non-negative value that its
  owner updates in place. The arithmetic the search needs (`add`, `divide` by
  two, `increment`, `decrement`, `copyFrom`, `compareTo`) is plain `nat`
  arithmetic; `power` is the recursive function `Pow`, together with the facts
  about it that the search relies on.
*/
module NaturalNumbers {

  /** A natural number that is updated in place, like a caller's `n` under `@updates n`. */
  class NaturalNumber {
    var value: nat

    constructor (v: nat)
      ensures value == v
    {
      value := v;
    }
  }

  /** `b` raised to the `e`-th power; `Pow(b, 0) == 1` for every `b`, including 0. */
  function Pow(b: nat, e: nat): nat
  {
    if e == 0 then 1 else b * Pow(b, e - 1)
  }

  /** Any positive power of 0 is 0. */
  lemma PowZeroBase(e: nat)
    requires e >= 1
    ensures Pow(0, e) == 0
  {
  }

  /** Every power of a positive base is positive. */
  lemma {:induction false} PowPositive(b: nat, e: nat)
    requires b >= 1
    ensures Pow(b, e) >= 1
  {
    if e > 0 {
      PowPositive(b, e - 1);
      MulAtLeastOne(b, Pow(b, e - 1));
    }
  }

  lemma MulAtLeastOne(x: nat, y: nat)
    requires x >= 1 && y >= 1
    ensures x * y >= 1
  {
  }

  lemma MulMonotone(a: nat, b: nat, x: nat, y: nat)
    requires a <= b && x <= y
    ensures a * x <= b * y
  {
  }

  lemma MulStrictMonotone(a: nat, b: nat, x: nat, y: nat)
    requires a < b && x <= y && y >= 1
    ensures a * x < b * y
  {
  }

  /** Raising to a fixed power is monotone in the base. */
  lemma {:induction false} PowMonotoneInBase(a: nat, b: nat, e: nat)
    requires a <= b
    ensures Pow(a, e) <= Pow(b, e)
  {
    if e > 0 {
      PowMonotoneInBase(a, b, e - 1);
      MulMonotone(a, b, Pow(a, e - 1), Pow(b, e - 1));
    }
  }

  /** Raising to a fixed positive power is strictly monotone in the base. */
  lemma {:induction false} PowStrictlyMonotoneInBase(a: nat, b: nat, e: nat)
    requires a < b && e >= 1
    ensures Pow(a, e) < Pow(b, e)
  {
    PowMonotoneInBase(a, b, e - 1);
    PowPositive(b, e - 1);
    MulStrictMonotone(a, b, Pow(a, e - 1), Pow(b, e - 1));
  }

  /** A positive power of `n + 1` exceeds `n`: the reason `n` bounds its own roots from above. */
  lemma {:induction false} BelowPowOfSuccessor(n: nat, e: nat)
    requires e >= 1
    ensures n < Pow(n + 1, e)
  {
    PowPositive(n + 1, e - 1);
    MulMonotone(n + 1, n + 1, 1, Pow(n + 1, e - 1));
  }
}
