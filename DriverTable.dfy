/**
  The demonstration table of the program's driver: each number, the degree
  of the root taken and the expected result. Parsing the numbers from decimal
  text and printing pass/fail lines are not modelled; what is kept is the
  comparison of each computed root with its expected value.
*/
module RootDriverTable {
  import opened NaturalNumbers
  import opened NaturalNumberRoot

  const Numbers: seq<nat> := [
    0, 1, 13, 1024, 189943527, 0,
    1, 13, 4096, 189943527, 0, 1, 13, 1024,
    189943527, 82, 82, 82, 82, 82, 9, 27, 81,
    243, 143489073, 2147483647, 2147483648,
    9223372036854775807, 9223372036854775808,
    618970019642690137449562111,
    162259276829213363391578010288127,
    170141183460469231731687303715884105727]

  const Roots: seq<int> := [
    2, 2, 2, 2, 2, 3, 3, 3, 3, 3, 15, 15, 15, 15, 15,
    2, 3, 4, 5, 15, 2, 3, 4, 5, 15, 2, 2, 3, 3, 4, 5, 6]

  const Results: seq<nat> := [
    0, 1, 3, 32, 13782, 0, 1, 2,
    16, 574, 0, 1, 1, 1, 3, 9, 4, 3, 2, 1,
    3, 3, 3, 3, 3, 46340, 46340, 2097151, 2097152,
    4987896, 2767208, 2353973]

  /** The table's rows of degree 2. */
  lemma SquareRootRows()
    ensures IsFloorRoot(0, 0, 2)
    ensures IsFloorRoot(1, 1, 2)
    ensures IsFloorRoot(3, 13, 2)
    ensures IsFloorRoot(32, 1024, 2)
    ensures IsFloorRoot(13782, 189943527, 2)
    ensures IsFloorRoot(9, 82, 2)
    ensures IsFloorRoot(3, 9, 2)
    ensures IsFloorRoot(46340, 2147483647, 2)
    ensures IsFloorRoot(46340, 2147483648, 2)
  {
  }

  /** The table's rows of degree 3. */
  lemma CubeRootRows()
    ensures IsFloorRoot(0, 0, 3)
    ensures IsFloorRoot(1, 1, 3)
    ensures IsFloorRoot(2, 13, 3)
    ensures IsFloorRoot(16, 4096, 3)
    ensures IsFloorRoot(574, 189943527, 3)
    ensures IsFloorRoot(4, 82, 3)
    ensures IsFloorRoot(3, 27, 3)
    ensures IsFloorRoot(2097151, 9223372036854775807, 3)
    ensures IsFloorRoot(2097152, 9223372036854775808, 3)
  {
  }

  /** The table's rows of degree 4. */
  lemma FourthRootRows()
    ensures IsFloorRoot(3, 82, 4)
    ensures IsFloorRoot(3, 81, 4)
    ensures IsFloorRoot(4987896, 618970019642690137449562111, 4)
  {
  }

  /** The table's rows of degree 5. */
  lemma FifthRootRows()
    ensures IsFloorRoot(2, 82, 5)
    ensures IsFloorRoot(3, 243, 5)
    ensures IsFloorRoot(2767208, 162259276829213363391578010288127, 5)
  {
  }

  /** The table's rows of degree 6. */
  lemma SixthRootRows()
    ensures IsFloorRoot(2353973, 170141183460469231731687303715884105727, 6)
  {
  }

  /** The table's rows of degree 15. */
  lemma FifteenthRootRows()
    ensures IsFloorRoot(0, 0, 15)
    ensures IsFloorRoot(1, 1, 15)
    ensures IsFloorRoot(1, 13, 15)
    ensures IsFloorRoot(1, 1024, 15)
    ensures IsFloorRoot(3, 189943527, 15)
    ensures IsFloorRoot(1, 82, 15)
    ensures IsFloorRoot(3, 143489073, 15)
  {
    assert Pow(0, 5) == 0 && Pow(0, 10) == 0;
    assert Pow(1, 5) == 1 && Pow(1, 10) == 1;
    assert Pow(2, 5) == 32 && Pow(2, 10) == 1024;
    assert Pow(3, 5) == 243 && Pow(3, 10) == 59049;
    assert Pow(4, 5) == 1024 && Pow(4, 10) == 1048576;
  }

  /** Every expected value in the table brackets its number: it is the floor root. */
  lemma ExpectedResultIsFloorRoot(i: nat)
    requires i < |Numbers|
    ensures |Roots| == |Results| == |Numbers| && Roots[i] >= 2
    ensures IsFloorRoot(Results[i], Numbers[i], Roots[i])
  {
    SquareRootRows();
    CubeRootRows();
    FourthRootRows();
    FifthRootRows();
    SixthRootRows();
    FifteenthRootRows();
  }

  /**
    Runs `Root` on every row of the table and counts the rows whose computed
    root equals the expected value: all of them pass.
  */
  method DriverTable() returns (passed: nat)
    ensures passed == |Numbers|
  {
    passed := 0;
    for i := 0 to |Numbers|
      invariant passed == i
    {
      ExpectedResultIsFloorRoot(i);
      var n := new NaturalNumber(Numbers[i]);
      Root(n, Roots[i]);
      FloorRootUnique(n.value, Results[i], Numbers[i], Roots[i]);
      if n.value == Results[i] {
        passed := passed + 1;
      }
    }
  }
}
