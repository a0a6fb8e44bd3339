/**
  The `root` operation: replaces a natural number by the floor of its `r`-th
  root, found by binary search over candidate roots with integer operations
  only.
*/
module NaturalNumberRoot {
  import opened NaturalNumbers

  /** `k` is the floor of the `r`-th root of `n`: `k^r <= n < (k + 1)^r`. */
  predicate IsFloorRoot(k: nat, n: nat, r: nat)
  {
    Pow(k, r) <= n < Pow(k + 1, r)
  }

  /** The floor root is the greatest `j` with `j^r <= n`: a `j` has `j^r <= n` exactly when `j <= k`. */
  lemma FloorRootIsGreatest(k: nat, n: nat, r: nat, j: nat)
    requires r >= 1 && IsFloorRoot(k, n, r)
    ensures Pow(j, r) <= n <==> j <= k
  {
    if j <= k {
      PowMonotoneInBase(j, k, r);
    } else {
      PowMonotoneInBase(k + 1, j, r);
    }
  }

  /** For fixed `r`, the floor root is monotone in the number whose root is taken. */
  lemma FloorRootMonotone(a: nat, n1: nat, b: nat, n2: nat, r: nat)
    requires r >= 1 && n1 <= n2
    requires IsFloorRoot(a, n1, r) && IsFloorRoot(b, n2, r)
    ensures a <= b
  {
    FloorRootIsGreatest(b, n2, r, a);
  }

  /** There is at most one floor root, so a bracketing result is the expected value. */
  lemma FloorRootUnique(a: nat, b: nat, n: nat, r: nat)
    requires r >= 1 && IsFloorRoot(a, n, r) && IsFloorRoot(b, n, r)
    ensures a == b
  {
    FloorRootMonotone(a, n, b, n, r);
    FloorRootMonotone(b, n, a, n, r);
  }

  /** When `n == k^r` the floor root of `n` is exactly `k`. */
  lemma ExactRoot(k: nat, r: nat, j: nat)
    requires r >= 1
    ensures IsFloorRoot(j, Pow(k, r), r) <==> j == k
  {
    PowStrictlyMonotoneInBase(k, k + 1, r);
    if IsFloorRoot(j, Pow(k, r), r) {
      FloorRootUnique(j, k, Pow(k, r), r);
    }
  }

  /** The floor root of 0 is 0, whatever the degree. */
  lemma ZeroRoot(r: nat, j: nat)
    requires r >= 1
    ensures IsFloorRoot(j, 0, r) <==> j == 0
  {
    PowZeroBase(r);
    ExactRoot(0, r, j);
  }

  /**
    Updates `n` to the `r`-th root of its incoming value. The loop mirrors the
    source: `low`, `high`, `result`, `mid` and `power` are working numbers owned
    by this call, and `n` itself is overwritten only on an exact match and,
    failing that, with `result` after the loop.
  */
  method Root(n: NaturalNumber, r: int)
    requires r >= 2
    modifies n
    ensures IsFloorRoot(n.value, old(n.value), r)
  {
    ghost var subject := n.value;
    var low: nat := 0;
    var high: nat := n.value;
    var result: nat := high;
    var mid: nat := 0;
    var power: nat := 0;
    var foundExactRoot := false;

    // The initial bracket: every k above high = n has k^r > n.
    forall k: nat | high < k
      ensures subject < Pow(k, r)
    {
      BelowPowOfSuccessor(subject, r);
      PowMonotoneInBase(subject + 1, k, r);
    }

    while low <= high && !foundExactRoot
      invariant low <= high + 1
      invariant forall k: nat :: k < low ==> Pow(k, r) < subject
      invariant forall k: nat :: high < k ==> subject < Pow(k, r)
      invariant low > 0 ==> result == low - 1
      invariant !foundExactRoot ==> n.value == subject
      invariant foundExactRoot ==> IsFloorRoot(n.value, subject, r)
      decreases !foundExactRoot, high + 1 - low
    {
      mid := (low + high) / 2;
      assert low <= mid <= high;
      power := Pow(mid, r);

      if power == n.value {
        // Exact root: n takes the value of mid and the loop ends.
        PowStrictlyMonotoneInBase(mid, mid + 1, r);
        n.value := mid;
        foundExactRoot := true;
      } else if power < n.value {
        // mid is a confirmed lower bound; the only place result changes.
        forall k: nat | k <= mid
          ensures Pow(k, r) < subject
        {
          PowMonotoneInBase(k, mid, r);
        }
        result := mid;
        low := mid + 1;
      } else {
        // mid overshoots; 0^r = 0 <= n, so mid >= 1 and the decrement stays natural.
        PowZeroBase(r);
        forall k: nat | mid <= k
          ensures subject < Pow(k, r)
        {
          PowMonotoneInBase(mid, k, r);
        }
        high := mid - 1;
      }
    }

    if !foundExactRoot {
      // low == high + 1 >= 1, so result == high lies just below the bracket's top.
      assert result == high && high < low;
      n.value := result;
    }
  }
}
