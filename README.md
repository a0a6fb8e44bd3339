# Natural number root, in Dafny

This project models `NaturalNumberRoot.root`, a secondary operation on
arbitrary-precision natural numbers. It updates a number `n` in place to
the floor of its `r`-th root, for `r >= 2`. It does this by binary search
over candidate roots, using only whole-number operations: add, halve,
raise to a power, compare, increment, decrement and copy.

The model has three modules. Each sits in its own file.

- `NaturalNumbers` (`NaturalNumbers.dfy`) holds the number type.
  - A `NaturalNumber` object holds one unbounded `nat` value. Its owner
    overwrites it in place, which is how the source's `@updates n` works.
  - The library's `copyFrom`, `add`, `divide(two)`, `increment`,
    `decrement` and `compareTo` are plain `nat` assignment, `+`, `/ 2`,
    `+ 1`, `- 1` and `<` / `==`.
  - `power(r)` is the recursive function `Pow`. The module also proves the
    facts about `Pow` that the search needs.
- `NaturalNumberRoot` (`NaturalNumberRoot.dfy`) holds the root operation.
  - `IsFloorRoot(k, n, r)` is the specification `k^r <= n < (k+1)^r`.
    Lemmas show it has a unique solution, that the solution is the greatest
    `k` with `k^r <= n`, that it grows with `n`, that it returns `k` when
    `n = k^r`, and that it returns 0 when `n = 0`.
  - `Root` is the method. It keeps the source's `while` loop, the
    `foundExactRoot` flag and the three-way comparison. Its loop invariants
    carry the binary-search bracket.
- `RootDriverTable` (`DriverTable.dfy`) holds the driver's test table.
  - The table is the driver's 32 numbers, degrees and expected results.
  - A lemma proves each expected value is the floor root.
  - `DriverTable` runs `Root` on every row and counts the rows that match.
    It is proved that all 32 match.

The number that `Root` updates is a `NaturalNumber` object. The working
numbers `low`, `high`, `result`, `mid` and `power` are local `nat`s. In
the source they are fresh objects that only this call owns, and none of
them is aliased, so a `copyFrom` between them is an assignment.

## Model

| member | source | states |
|---|---|---|
| `NaturalNumberRoot.Root` | src/NaturalNumberRoot.java:34-102 | Requires `r >= 2`. Afterwards `n.value^r <= old(n.value) < (n.value+1)^r`. Loop invariants: every `k < low` has `k^r < n` and every `k > high` has `k^r > n`; `result == low - 1` once `low > 0`; `n` is unchanged until an exact match, and an exact match leaves the floor root in `n`. `mid` lies in `[low, high]`. On the overshoot branch `mid >= 1`, so the decrement stays natural. The loop ends because the flag is set or `high + 1 - low` shrinks |
| `NaturalNumberRoot.FloorRootIsGreatest` | src/NaturalNumberRoot.java:32 | For `r >= 1`, if `k` brackets `n` then `j^r <= n` holds exactly when `j <= k`: the bracket picks out the greatest `k` whose power does not exceed `n` |
| `NaturalNumberRoot.FloorRootUnique` | src/NaturalNumberRoot.java:32 | Two values that both bracket `n` for the same `r >= 1` are equal, so the postcondition fixes the result |
| `NaturalNumberRoot.FloorRootMonotone` | src/NaturalNumberRoot.java:32 | For fixed `r >= 1` and `n1 <= n2`, the floor root of `n1` is at most the floor root of `n2` |
| `NaturalNumberRoot.ExactRoot` | src/NaturalNumberRoot.java:77-81 | For `r >= 1`, `j` brackets `k^r` exactly when `j == k`: an exact power yields its base, with no off-by-one |
| `NaturalNumberRoot.ZeroRoot` | src/NaturalNumberRoot.java:32 | For `r >= 1`, `j` brackets 0 exactly when `j == 0` |
| `NaturalNumbers.PowMonotoneInBase` | src/NaturalNumberRoot.java:83-90 | `a <= b` implies `a^e <= b^e`. This justifies dropping every candidate below a too-small `mid` and above a too-large `mid` |
| `NaturalNumbers.PowStrictlyMonotoneInBase` | src/NaturalNumberRoot.java:79-81 | For `e >= 1`, `a < b` implies `a^e < b^e`. So an exact match `mid^r == n` also has `n < (mid+1)^r` |
| `NaturalNumbers.BelowPowOfSuccessor` | src/NaturalNumberRoot.java:41-43 | For `e >= 1`, `n < (n+1)^e`. So `high = n` is a valid initial upper bound |
| `NaturalNumbers.PowPositive` | src/NaturalNumberRoot.java:68 | Every power of a positive base is at least 1 |
| `NaturalNumbers.PowZeroBase` | src/NaturalNumberRoot.java:87-89 | For `e >= 1`, `0^e == 0`. So `mid^r > n` rules out `mid == 0` |
| `RootDriverTable.ExpectedResultIsFloorRoot` | src/NaturalNumberRoot.java:113-126 | Each of the 32 expected results is the floor root of its number at its degree, and each degree is at least 2 |
| `RootDriverTable.DriverTable` | src/NaturalNumberRoot.java:128-140 | `Root` runs on each table row and its result equals the expected value on every row: the pass count equals the table's length |

## Left out

- Console output, parsing numbers from decimal strings, and rendering
  results as text in `main` (src/NaturalNumberRoot.java:110-143). These
  are I/O. The table itself and the pass/fail comparison are kept.
- The internal representation of `NaturalNumber` / `NaturalNumber2`.
  These belong to an outside library that this model does not include.
  Their operations are plain unbounded `nat` arithmetic, and `power` is `Pow`.
- The library's errors for division by zero and for `decrement` of 0. The
  search only ever divides by 2. The model's `nat` types check that the
  search never decrements 0.
- The `n != null` assertion (src/NaturalNumberRoot.java:35). A Dafny
  object reference of type `NaturalNumber` is never null.
- The `r >= 2` assertion (src/NaturalNumberRoot.java:36) is a
  precondition of `Root`, not a handled case. Java's 32-bit `int` width of
  `r` plays no part, so `r` is an unbounded `int`.
- Running time. `high = n` is a very loose starting bound for large `n`,
  but only correctness and termination are modelled.
