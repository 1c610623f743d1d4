/**
 * Day 6, part 2 (day-06/src/part2.rs): a worksheet of whitespace-separated
 * columns; every row but the last holds numbers, the last row holds each
 * column's operator, `*` or `+`. Each column is solved and the results added.
 * `usize` values are unbounded naturals.
 */
module Day06Part2 {
  import opened Wrappers
  import opened Text
  import opened RustInt

  /** The `Problem` trait's two implementations, each holding its column's numbers. */
  datatype Problem = Multiplication(vals: seq<nat>) | Addition(vals: seq<nat>)

  function Product(vals: seq<nat>): nat {
    if vals == [] then 1 else Product(vals[..|vals| - 1]) * vals[|vals| - 1]
  }

  function Sum(vals: seq<nat>): nat {
    if vals == [] then 0 else Sum(vals[..|vals| - 1]) + vals[|vals| - 1]
  }

  /** The product splits over concatenation, 1 being the product of nothing. */
  lemma {:induction false} ProductAppend(a: seq<nat>, b: seq<nat>)
    ensures Product(a + b) == Product(a) * Product(b)
    decreases |b|
  {
    if b != [] {
      var c := b[..|b| - 1];
      ProductAppend(a, c);
      assert (a + b)[..|a + b| - 1] == a + c;
    } else {
      assert a + b == a;
    }
  }

  /** The sum splits over concatenation, 0 being the sum of nothing. */
  lemma {:induction false} SumAppend(a: seq<nat>, b: seq<nat>)
    ensures Sum(a + b) == Sum(a) + Sum(b)
    decreases |b|
  {
    if b != [] {
      var c := b[..|b| - 1];
      SumAppend(a, c);
      assert (a + b)[..|a + b| - 1] == a + c;
    } else {
      assert a + b == a;
    }
  }

  /** A product is zero exactly when one of the factors is. */
  lemma {:induction false} ProductZero(vals: seq<nat>)
    ensures Product(vals) == 0 <==> 0 in vals
  {
    if vals != [] {
      var p := vals[..|vals| - 1];
      ProductZero(p);
      assert vals == p + [vals[|vals| - 1]];
    }
  }

  /** Every term is at most the sum. */
  lemma {:induction false} SumBounds(vals: seq<nat>, k: int)
    requires 0 <= k < |vals|
    ensures vals[k] <= Sum(vals)
  {
    var p := vals[..|vals| - 1];
    if k < |vals| - 1 {
      SumBounds(p, k);
    }
  }

  /**
   * `solve`: `MultiplicationProblem` multiplies into `res`, starting from 1;
   * `AdditionProblem` is the iterator's `sum`.
   */
  method Solve(p: Problem) returns (r: nat)
    ensures p.Multiplication? ==> r == Product(p.vals)
    ensures p.Addition? ==> r == Sum(p.vals)
  {
    match p
    case Multiplication(vals) =>
      var res := 1;
      for k := 0 to |vals|
        invariant res == Product(vals[..k])
      {
        assert vals[..k + 1][..k] == vals[..k];
        res := res * vals[k];
      }
      assert vals[..|vals|] == vals;
      r := res;
    case Addition(vals) =>
      r := Sum(vals);
  }

  // ---------------------------------------------------------------------------
  // `solve_problems`.

  /** The worksheet, one sequence of words per line. */
  type Sheet = seq<seq<string>>

  /** A panic of `solve_problems`: `data.len() - 1` underflowing, an index out of bounds, a failed `unwrap`, `unreachable!`. */
  datatype SheetError = EmptySheet | MissingCell(row: nat, column: nat) | BadNumber(row: nat, column: nat) | BadOperator(column: nat)

  /** The cell exists and parses as a `usize`. */
  predicate NumberCell(data: Sheet, i: nat, j: nat)
    requires i < |data|
  {
    j < |data[i]| && ParseUnsigned(data[i][j], USIZE_MAX).Some?
  }

  /**
   * The numbers of column `j` in rows `0..n`, parsed in row order; or the
   * first cell that is missing or is not a number.
   */
  function ColumnValues(data: Sheet, j: nat, n: nat): (r: Result<seq<nat>, SheetError>)
    requires n <= |data|
    ensures r.Ok? <==> forall i :: 0 <= i < n ==> NumberCell(data, i, j)
    ensures r.Ok? ==> (|r.value| == n
      && forall i :: 0 <= i < n ==> NumberCell(data, i, j) && Some(r.value[i]) == ParseUnsigned(data[i][j], USIZE_MAX))
    ensures r.Err? ==> ((r.error.MissingCell? || r.error.BadNumber?) && r.error.column == j
      && r.error.row < n && !NumberCell(data, r.error.row, j)
      && forall i :: 0 <= i < r.error.row ==> NumberCell(data, i, j))
  {
    if n == 0 then Ok([])
    else
      match ColumnValues(data, j, n - 1)
      case Err(e) => Err(e)
      case Ok(vals) =>
        if j >= |data[n - 1]| then
          assert !NumberCell(data, n - 1, j);
          Err(MissingCell(n - 1, j))
        else
          match ParseUnsigned(data[n - 1][j], USIZE_MAX)
          case None =>
            assert !NumberCell(data, n - 1, j);
            Err(BadNumber(n - 1, j))
          case Some(v) =>
            assert NumberCell(data, n - 1, j);
            assert forall i :: 0 <= i < n ==> NumberCell(data, i, j);
            var r := vals + [v];
            assert forall i :: 0 <= i < n - 1 ==> r[i] == vals[i];
            Ok(r)
  }

  /** The operator cell of column `j` exists and is `*` or `+`. */
  predicate OperatorCell(data: Sheet, j: nat)
    requires data != []
  {
    j < |data[|data| - 1]| && data[|data| - 1][j] in {"*", "+"}
  }

  /** One pass of the loop of `solve_problems`: column `j` solved, or the panic it hits first. */
  function Column(data: Sheet, j: nat): Result<nat, SheetError>
    requires data != []
  {
    var n := |data| - 1;
    match ColumnValues(data, j, n)
    case Err(e) => Err(e)
    case Ok(vals) =>
      if j >= |data[n]| then Err(MissingCell(n, j))
      else if data[n][j] == "*" then Ok(Product(vals))
      else if data[n][j] == "+" then Ok(Sum(vals))
      else Err(BadOperator(j))
  }

  /**
   * Column `j` is solved exactly when every number cell parses and the
   * operator is `*` or `+`; its value is then the product or the sum of
   * the parsed numbers, taken in row order.
   */
  lemma ColumnMeaning(data: Sheet, j: nat)
    requires data != []
    ensures var n := |data| - 1;
      Column(data, j).Ok? <==> (forall i :: 0 <= i < n ==> NumberCell(data, i, j)) && OperatorCell(data, j)
    ensures var n := |data| - 1;
      Column(data, j).Ok? ==>
        var vals := seq(n, i requires 0 <= i < n && NumberCell(data, i, j) => ParseUnsigned(data[i][j], USIZE_MAX).value);
        Column(data, j).value == if data[n][j] == "*" then Product(vals) else Sum(vals)
  {
    var n := |data| - 1;
    var cv := ColumnValues(data, j, n);
    if cv.Ok? {
      var vals := seq(n, i requires 0 <= i < n && NumberCell(data, i, j) => ParseUnsigned(data[i][j], USIZE_MAX).value);
      assert cv.value == vals;
    }
  }

  /** Every column of the first line can be solved. */
  predicate Solvable(data: Sheet) {
    data != [] && forall j :: 0 <= j < |data[0]| ==> Column(data, j).Ok?
  }

  /** The solutions, one per column of the first line, in column order. */
  function Solutions(data: Sheet): (r: seq<nat>)
    requires Solvable(data)
    ensures |r| == |data[0]|
  {
    seq(|data[0]|, j requires 0 <= j < |data[0]| => Column(data, j).value)
  }

  /** One pass of the loop of `solve_problems`: read column `j`, then solve it by its operator. */
  method SolveColumn(data: Sheet, j: nat) returns (r: Result<nat, SheetError>)
    requires data != []
    ensures r == Column(data, j)
  {
    var nVals := |data| - 1;
    var vals := ColumnValues(data, j, nVals);
    if vals.Err? {
      return Err(vals.error);
    }
    if j >= |data[nVals]| {
      return Err(MissingCell(nVals, j));
    }
    var value;
    if data[nVals][j] == "*" {
      value := Solve(Multiplication(vals.value));
    } else if data[nVals][j] == "+" {
      value := Solve(Addition(vals.value));
    } else {
      return Err(BadOperator(j));
    }
    return Ok(value);
  }

  /**
   * `solve_problems`: one value per column of the first line, pushed in
   * column order; the first column that panics ends the run.
   */
  method SolveProblems(data: Sheet) returns (r: Result<seq<nat>, SheetError>)
    ensures r.Ok? <==> Solvable(data)
    ensures r.Ok? ==> r.value == Solutions(data)
    ensures data == [] ==> r == Err(EmptySheet)
    ensures r.Err? && data != [] ==> exists j :: (0 <= j < |data[0]| && Column(data, j) == Err(r.error)
      && forall k :: 0 <= k < j ==> Column(data, k).Ok?)
  {
    if data == [] {
      return Err(EmptySheet);
    }
    var problems := [];
    for j := 0 to |data[0]|
      invariant |problems| == j
      invariant forall k :: 0 <= k < j ==> Column(data, k) == Ok(problems[k])
    {
      var value := SolveColumn(data, j);
      if value.Err? {
        FailedColumn(data, j, value.error);
        return Err(value.error);
      }
      SolvedNext(data, problems, value.value);
      problems := problems + [value.value];
    }
    SolvedColumns(data, problems);
    return Ok(problems);
  }

  /** A column that panics after solved ones makes the sheet unsolvable, and is the first to panic. */
  lemma FailedColumn(data: Sheet, j: nat, e: SheetError)
    requires data != [] && j < |data[0]| && Column(data, j) == Err(e)
    requires forall k :: 0 <= k < j ==> Column(data, k).Ok?
    ensures !Solvable(data)
    ensures exists i :: 0 <= i < |data[0]| && Column(data, i) == Err(e) && forall k :: 0 <= k < i ==> Column(data, k).Ok?
  {
  }

  /** Solving the next column extends the solved prefix by its value. */
  lemma SolvedNext(data: Sheet, problems: seq<nat>, v: nat)
    requires data != [] && Column(data, |problems|) == Ok(v)
    requires forall k :: 0 <= k < |problems| ==> Column(data, k) == Ok(problems[k])
    ensures forall k :: 0 <= k < |problems| + 1 ==> Column(data, k) == Ok((problems + [v])[k])
  {
  }

  /** One solved value per column, in order, is the sheet's solutions. */
  lemma SolvedColumns(data: Sheet, problems: seq<nat>)
    requires data != [] && |problems| == |data[0]|
    requires forall k :: 0 <= k < |problems| ==> Column(data, k) == Ok(problems[k])
    ensures Solvable(data) && problems == Solutions(data)
  {
  }

  /**
   * `process` without the file: each line split at whitespace, the columns
   * solved, the solutions added up.
   */
  method Process(lines: seq<string>) returns (r: Result<nat, SheetError>)
    ensures var data := seq(|lines|, i requires 0 <= i < |lines| => SplitWhitespace(lines[i]));
      (r.Ok? <==> Solvable(data)) && (r.Ok? ==> r.value == Sum(Solutions(data)))
  {
    var data := seq(|lines|, i requires 0 <= i < |lines| => SplitWhitespace(lines[i]));
    var solutions := SolveProblems(data);
    if solutions.Err? {
      return Err(solutions.error);
    }
    return Ok(Sum(solutions.value));
  }
}
