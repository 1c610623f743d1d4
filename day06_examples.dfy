/** Day-6 worksheets, small enough to read, checked against the model's contracts. */
module Day06Examples {
  import opened Wrappers
  import opened Text
  import opened RustInt
  import opened Day06Part2

  /** The product of nothing is 1 and the sum of nothing is 0. */
  method EmptyProblems() {
    var m := Solve(Multiplication([]));
    var a := Solve(Addition([]));
    assert m == 1 && a == 0;
    var p := Solve(Multiplication([3, 5, 0]));
    ProductZero([3, 5, 0]);
    assert p == 0;
  }

  const Sheet2: Sheet := [["3", "4"], ["5", "6"], ["*", "+"]]

  lemma Sheet2First(data: Sheet)
    requires data == Sheet2
    ensures Column(data, 0) == Ok(15)
  {
    assert ParseUnsigned("3", USIZE_MAX) == Some(3) && ParseUnsigned("5", USIZE_MAX) == Some(5);
    assert data[0][0] == "3" && data[1][0] == "5";
    assert ColumnValues(data, 0, 0) == Ok([]);
    assert [] + [3] == [3];
    assert ColumnValues(data, 0, 1) == Ok([3]);
    assert [3] + [5] == [3, 5];
    assert ColumnValues(data, 0, 2) == Ok([3, 5]);
    assert Product([3, 5]) == 15 by {
      assert [3, 5][..1] == [3];
    }
  }

  lemma Sheet2Second(data: Sheet)
    requires data == Sheet2
    ensures Column(data, 1) == Ok(10)
  {
    assert ParseUnsigned("4", USIZE_MAX) == Some(4) && ParseUnsigned("6", USIZE_MAX) == Some(6);
    assert data[0][1] == "4" && data[1][1] == "6";
    assert ColumnValues(data, 1, 0) == Ok([]);
    assert [] + [4] == [4];
    assert ColumnValues(data, 1, 1) == Ok([4]);
    assert [4] + [6] == [4, 6];
    assert ColumnValues(data, 1, 2) == Ok([4, 6]);
    assert Sum([4, 6]) == 10 by {
      assert [4, 6][..1] == [4];
    }
  }

  /** A column of products and a column of sums, solved in column order. */
  method SolveProblemsExample() {
    Sheet2First(Sheet2);
    Sheet2Second(Sheet2);
    var r := SolveProblems(Sheet2);
    assert Solutions(Sheet2) == [15, 10];
    assert r == Ok([15, 10]);
  }

  /** An operator other than `*` and `+` is the `unreachable!` panic. */
  method BadOperatorExample() {
    var data := [["3"], ["-"]];
    assert ParseUnsigned("3", USIZE_MAX) == Some(3);
    assert ColumnValues(data, 0, 0) == Ok([]) && [] + [3] == [3];
    assert ColumnValues(data, 0, 1) == Ok([3]);
    assert Column(data, 0) == Err(BadOperator(0));
    var r := SolveProblems(data);
    assert r.Err?;
  }

  /** No lines at all is the `data.len() - 1` underflow. */
  method EmptySheetExample() {
    var r := SolveProblems([]);
    assert r == Err(EmptySheet);
  }
}
