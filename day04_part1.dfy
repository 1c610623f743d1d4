/**
 * Day 4, part 1 (day-04/src/part1.rs): a grid of paper rolls (1) and floor
 * (0), padded with a border of zeros, and the count of rolls that have fewer
 * than five rolls among their eight neighbours. A `Vec<Vec<usize>>` is a
 * sequence of rows; `usize` cells are unbounded naturals.
 *
 * `buffered_grid` and `find_n_blocking` are repeated verbatim in part2.rs
 * (lines 14-43); they are modelled once, here.
 */
module Day04Part1 {
  import opened Wrappers

  type Grid = seq<seq<nat>>

  /** `rows` rows of exactly `cols` cells each. */
  predicate IsRect(g: Grid, rows: nat, cols: nat) {
    |g| == rows && forall i :: 0 <= i < |g| ==> |g[i]| == cols
  }

  // ---------------------------------------------------------------------------
  // Reading the text.

  datatype GridError = BadCell(line: nat, column: nat) | EmptyGrid | OutOfBounds

  /** `read_txt` after the file is read: `@` is a roll, `.` is floor, anything else is unreachable. */
  function ReadLine(line: string, n: nat): (r: Result<seq<nat>, GridError>)
    ensures r.Ok? <==> forall j :: 0 <= j < |line| ==> line[j] in "@."
    ensures r.Ok? ==> (|r.value| == |line|
      && forall j :: 0 <= j < |line| ==> r.value[j] == (if line[j] == '@' then 1 else 0))
    ensures r.Err? ==> r.error.BadCell? && r.error.line == n && r.error.column < |line|
  {
    if line == [] then Ok([])
    else
      var last := line[|line| - 1];
      match ReadLine(line[..|line| - 1], n)
      case Err(e) => Err(e)
      case Ok(cells) =>
        if last == '@' then Ok(cells + [1])
        else if last == '.' then Ok(cells + [0])
        else Err(BadCell(n, |line| - 1))
  }

  /** All the lines read, or the error of the first bad character in line order. */
  function ReadGrid(lines: seq<string>): (r: Result<Grid, GridError>)
    ensures r.Ok? <==> forall i :: 0 <= i < |lines| ==> ReadLine(lines[i], i).Ok?
    ensures r.Ok? ==> (|r.value| == |lines|
      && forall i :: 0 <= i < |lines| ==> ReadLine(lines[i], i) == Ok(r.value[i]))
  {
    if lines == [] then Ok([])
    else
      var n := |lines| - 1;
      match ReadGrid(lines[..n])
      case Err(e) => Err(e)
      case Ok(rows) =>
        match ReadLine(lines[n], n)
        case Err(e) => Err(e)
        case Ok(row) => Ok(rows + [row])
  }

  // ---------------------------------------------------------------------------
  // `buffered_grid`.

  /** Every write `buffered[i + 1][j + 1]` of the copy loop lands inside `rows` rows of `cols` cells. */
  predicate FitsPadded(vec: Grid, rows: nat, cols: nat) {
    forall i :: 0 <= i < |vec| && vec[i] != [] ==> i + 1 < rows && |vec[i]| < cols
  }

  /** The cell at `(a, b)` once `vec` is copied one row and one column in from the corner. */
  function PaddedCell(vec: Grid, a: int, b: int): nat {
    if 1 <= a <= |vec| && 1 <= b <= |vec[a - 1]| then vec[a - 1][b - 1] else 0
  }

  /** A grid of `rows` rows of `cols` zeros with `vec` copied in at offset `(1, 1)`. */
  function Padded(vec: Grid, rows: nat, cols: nat): (g: Grid)
    ensures IsRect(g, rows, cols)
  {
    seq(rows, a requires 0 <= a < rows => seq(cols, b requires 0 <= b < cols => PaddedCell(vec, a, b)))
  }

  /** Two grids of the same shape with the same cells are equal. */
  lemma GridsEqual(g: Grid, h: Grid, rows: nat, cols: nat)
    requires IsRect(g, rows, cols) && IsRect(h, rows, cols)
    requires forall a, b :: 0 <= a < rows && 0 <= b < cols ==> g[a][b] == h[a][b]
    ensures g == h
  {
    forall a | 0 <= a < rows
      ensures g[a] == h[a]
    {
      assert forall b :: 0 <= b < cols ==> g[a][b] == h[a][b];
    }
  }

  /**
   * The copy loop of `buffered_grid` (part1.rs:18-24): a zero grid of `rows`
   * rows of `cols` cells, then every `vec[i][j]` written at `(i + 1, j + 1)`.
   * A write outside the allocation panics.
   */
  method PadInto(vec: Grid, rows: nat, cols: nat) returns (r: Result<Grid, GridError>)
    ensures r.Ok? <==> FitsPadded(vec, rows, cols)
    ensures r.Ok? ==> r.value == Padded(vec, rows, cols)
    ensures r.Err? ==> r.error == OutOfBounds
  {
    var buffered: Grid := seq(rows, _ => seq(cols, _ => 0));
    for i := 0 to |vec|
      invariant IsRect(buffered, rows, cols)
      invariant FitsPadded(vec[..i], rows, cols)
      invariant forall a, b :: 0 <= a < rows && 0 <= b < cols ==> buffered[a][b] == PaddedCell(vec[..i], a, b)
    {
      for j := 0 to |vec[i]|
        invariant IsRect(buffered, rows, cols)
        invariant j > 0 ==> i + 1 < rows && j < cols
        invariant forall a, b :: 0 <= a < rows && 0 <= b < cols ==>
          buffered[a][b] == (if a == i + 1 && 1 <= b <= j then vec[i][b - 1] else PaddedCell(vec[..i], a, b))
      {
        if i + 1 >= rows || j + 1 >= cols {
          assert vec[i] != [] && !(i + 1 < rows && |vec[i]| < cols);
          return Err(OutOfBounds);
        }
        buffered := buffered[i + 1 := buffered[i + 1][j + 1 := vec[i][j]]];
      }
      assert vec[..i + 1][..i] == vec[..i] && vec[..i + 1][i] == vec[i];
      assert FitsPadded(vec[..i + 1], rows, cols);
    }
    assert vec[..|vec|] == vec;
    GridsEqual(buffered, Padded(vec, rows, cols), rows, cols);
    return Ok(buffered);
  }

  /**
   * `buffered_grid` as written: `vec![vec![0; n_rows + 2]; n_cols + 2]`
   * allocates `n_cols + 2` rows of `n_rows + 2` cells, while the dimensions
   * returned are `(n_rows + 2, n_cols + 2)`. An empty grid panics on `first().unwrap()`.
   */
  method BufferedGrid(vec: Grid) returns (r: Result<(Grid, nat, nat), GridError>)
    ensures vec == [] ==> r == Err(EmptyGrid)
    ensures vec != [] ==> (r.Ok? <==> FitsPadded(vec, |vec[0]| + 2, |vec| + 2))
    ensures r.Ok? ==> r.value == (Padded(vec, |vec[0]| + 2, |vec| + 2), |vec| + 2, |vec[0]| + 2)
  {
    if vec == [] {
      return Err(EmptyGrid);
    }
    var nRows, nCols := |vec|, |vec[0]|;
    var buffered := PadInto(vec, nCols + 2, nRows + 2);
    if buffered.Err? {
      return Err(buffered.error);
    }
    return Ok((buffered.value, nRows + 2, nCols + 2));
  }

  /**
   * `buffered_grid` with the allocation the returned dimensions describe:
   * `n_rows + 2` rows of `n_cols + 2` cells. The rest of the model uses this one.
   */
  method BufferedGridCorrected(vec: Grid) returns (r: Result<(Grid, nat, nat), GridError>)
    ensures vec == [] ==> r == Err(EmptyGrid)
    ensures vec != [] ==> (r.Ok? <==> FitsPadded(vec, |vec| + 2, |vec[0]| + 2))
    ensures r.Ok? ==> r.value == (Padded(vec, |vec| + 2, |vec[0]| + 2), |vec| + 2, |vec[0]| + 2)
    ensures r.Ok? ==> IsRect(r.value.0, r.value.1, r.value.2)
  {
    if vec == [] {
      return Err(EmptyGrid);
    }
    var nRows, nCols := |vec|, |vec[0]|;
    var buffered := PadInto(vec, nRows + 2, nCols + 2);
    if buffered.Err? {
      return Err(buffered.error);
    }
    return Ok((buffered.value, nRows + 2, nCols + 2));
  }

  /**
   * What the corrected padding gives a rectangular grid: two more rows and
   * columns, a border of zeros, and the grid itself inside it.
   */
  lemma PaddedFrame(vec: Grid, rows: nat, cols: nat)
    requires IsRect(vec, rows, cols) && rows >= 1
    ensures FitsPadded(vec, rows + 2, cols + 2)
    ensures var g := Padded(vec, rows + 2, cols + 2);
      IsRect(g, rows + 2, cols + 2)
      && (forall i, j :: 0 <= i < rows && 0 <= j < cols ==> g[i + 1][j + 1] == vec[i][j])
      && (forall b :: 0 <= b < cols + 2 ==> g[0][b] == 0 && g[rows + 1][b] == 0)
      && (forall a :: 0 <= a < rows + 2 ==> g[a][0] == 0 && g[a][cols + 1] == 0)
  {
  }

  /**
   * The swapped allocation on two non-square grids: one row `@@` fits but
   * comes back as 4 rows of 3 cells reported as 3 by 4, so a scan of the
   * reported interior reads past the end of a row; three rows `@` do not fit
   * the 3 rows allocated for them and panic. The corrected padding handles both.
   */
  lemma SwappedAllocation()
    ensures var wide := [[1, 1]];
      FitsPadded(wide, 4, 3) && |Padded(wide, 4, 3)| == 4 && |Padded(wide, 4, 3)[1]| == 3
      && !Covers(Padded(wide, 4, 3), 3, 4)
      && FitsPadded(wide, 3, 4) && Covers(Padded(wide, 3, 4), 3, 4)
    ensures var tall := [[1], [1], [1]];
      !FitsPadded(tall, 3, 5) && FitsPadded(tall, 5, 3)
  {
    var wide := [[1, 1]];
    assert |Padded(wide, 4, 3)[0]| == 3;
    var tall := [[1], [1], [1]];
    assert tall[2] != [] && !(2 + 1 < 3);
  }

  // ---------------------------------------------------------------------------
  // `find_n_blocking`.

  /** The eight cells around `(row, col)` lie inside the grid. */
  predicate HasNeighbourhood(g: Grid, row: nat, col: nat) {
    1 <= row && row + 1 < |g| && 1 <= col
    && col + 1 < |g[row - 1]| && col + 1 < |g[row]| && col + 1 < |g[row + 1]|
  }

  /** The eight cells around `(row, col)`, added up; the cell itself is not counted. */
  function NeighbourSum(g: Grid, row: nat, col: nat): nat
    requires HasNeighbourhood(g, row, col)
  {
    g[row - 1][col - 1] + g[row - 1][col] + g[row - 1][col + 1]
    + g[row][col - 1] + g[row][col + 1]
    + g[row + 1][col - 1] + g[row + 1][col] + g[row + 1][col + 1]
  }

  /** The cells of row `a` of the 3×3 window before column `j`, the centre left out. */
  function WindowRow(g: Grid, row: nat, col: nat, a: nat, j: int): nat
    requires HasNeighbourhood(g, row, col) && row - 1 <= a <= row + 1 && col - 1 <= j <= col + 2
    decreases j
  {
    if j == col - 1 then 0
    else WindowRow(g, row, col, a, j - 1) + (if a == row && j - 1 == col then 0 else g[a][j - 1])
  }

  /** The full rows of the 3×3 window above row `i`, the centre left out. */
  function WindowRows(g: Grid, row: nat, col: nat, i: int): nat
    requires HasNeighbourhood(g, row, col) && row - 1 <= i <= row + 2
    decreases i
  {
    if i == row - 1 then 0 else WindowRows(g, row, col, i - 1) + WindowRow(g, row, col, i - 1, col + 2)
  }

  /** The window, summed row by row as the loops do, is the neighbour sum. */
  lemma WindowIsNeighbourSum(g: Grid, row: nat, col: nat)
    requires HasNeighbourhood(g, row, col)
    ensures WindowRows(g, row, col, row + 2) == NeighbourSum(g, row, col)
  {
    forall a | row - 1 <= a <= row + 1
      ensures WindowRow(g, row, col, a, col + 2)
        == g[a][col - 1] + (if a == row then 0 else g[a][col]) + g[a][col + 1]
    {
      assert WindowRow(g, row, col, a, col) == g[a][col - 1];
    }
    assert WindowRows(g, row, col, row) == WindowRow(g, row, col, row - 1, col + 2);
  }

  /**
   * `find_n_blocking`: `None` on floor; on a roll, the sum of the eight
   * cells around it. The neighbourhood is only read, and so only needs to
   * be in the grid, when the cell holds a roll.
   */
  method FindNBlocking(vec: Grid, row: nat, col: nat) returns (r: Option<nat>)
    requires row < |vec| && col < |vec[row]|
    requires vec[row][col] != 0 ==> HasNeighbourhood(vec, row, col)
    ensures r.None? <==> vec[row][col] == 0
    ensures r.Some? ==> r.value == NeighbourSum(vec, row, col)
  {
    if vec[row][col] == 0 {
      return None;
    }
    var sum := 0;
    for i := row - 1 to row + 2
      invariant sum == WindowRows(vec, row, col, i)
    {
      for j := col - 1 to col + 2
        invariant sum == WindowRows(vec, row, col, i) + WindowRow(vec, row, col, i, j)
      {
        if i == row && j == col {
          continue;
        }
        sum := sum + vec[i][j];
      }
    }
    WindowIsNeighbourSum(vec, row, col);
    return Some(sum);
  }

  // ---------------------------------------------------------------------------
  // Scanning the interior.

  /** Rows `0..rows` exist and hold at least `cols` cells: a scan of that area stays in bounds. */
  predicate Covers(g: Grid, rows: nat, cols: nat) {
    rows <= |g| && forall i :: 0 <= i < rows ==> cols <= |g[i]|
  }

  /**
   * What the scan loops `1..n_rows - 1` and `1..n_cols - 1` need: `n_rows - 1`
   * must not underflow, nor `n_cols - 1` once the outer loop runs.
   */
  predicate Scannable(g: Grid, rows: nat, cols: nat) {
    Covers(g, rows, cols) && 1 <= rows && (rows > 2 ==> 1 <= cols)
  }

  /** `(i, j)` is off the border of a `rows` × `cols` area. */
  predicate Interior(rows: nat, cols: nat, i: int, j: int) {
    1 <= i < rows - 1 && 1 <= j < cols - 1
  }

  lemma InteriorHasNeighbourhood(g: Grid, rows: nat, cols: nat, i: nat, j: nat)
    requires Covers(g, rows, cols) && Interior(rows, cols, i, j)
    ensures HasNeighbourhood(g, i, j)
  {
    assert cols <= |g[i - 1]| && cols <= |g[i]| && cols <= |g[i + 1]|;
  }

  /** A roll with fewer than `limit` rolls around it. */
  predicate Accessible(g: Grid, rows: nat, cols: nat, limit: nat, i: nat, j: nat)
    requires Covers(g, rows, cols) && Interior(rows, cols, i, j)
  {
    InteriorHasNeighbourhood(g, rows, cols, i, j);
    g[i][j] != 0 && NeighbourSum(g, i, j) < limit
  }

  /** The accessible cells of row `i` in columns `1..n`, left to right. */
  function RowAccessible(g: Grid, rows: nat, cols: nat, limit: nat, i: nat, n: nat): (r: seq<(nat, nat)>)
    requires Covers(g, rows, cols) && 1 <= i < rows - 1 && (n <= 1 || n < cols)
    decreases n
  {
    if n <= 1 then []
    else RowAccessible(g, rows, cols, limit, i, n - 1) + (if Accessible(g, rows, cols, limit, i, n - 1) then [(i, n - 1)] else [])
  }

  /** The accessible cells of rows `1..m`, in row-major order: the order of the scan. */
  function GridAccessible(g: Grid, rows: nat, cols: nat, limit: nat, m: nat): (r: seq<(nat, nat)>)
    requires Scannable(g, rows, cols) && (m <= 1 || m < rows)
    decreases m
  {
    if m <= 1 then []
    else GridAccessible(g, rows, cols, limit, m - 1) + RowAccessible(g, rows, cols, limit, m - 1, cols - 1)
  }

  /** All the accessible cells of the interior, in row-major order. */
  function AllAccessible(g: Grid, rows: nat, cols: nat, limit: nat): seq<(nat, nat)>
    requires Scannable(g, rows, cols)
  {
    GridAccessible(g, rows, cols, limit, rows - 1)
  }

  /** Row-major order on coordinates. */
  predicate Before(c: (nat, nat), d: (nat, nat)) {
    c.0 < d.0 || (c.0 == d.0 && c.1 < d.1)
  }

  /** Strictly increasing in row-major order, hence free of repeats. */
  predicate RowMajor(s: seq<(nat, nat)>) {
    forall p, q :: 0 <= p < q < |s| ==> Before(s[p], s[q])
  }

  lemma {:induction false} RowAccessibleMembers(g: Grid, rows: nat, cols: nat, limit: nat, i: nat, n: nat)
    requires Covers(g, rows, cols) && 1 <= i < rows - 1 && (n <= 1 || n < cols)
    ensures forall c :: c in RowAccessible(g, rows, cols, limit, i, n) <==>
      c.0 == i && 1 <= c.1 < n && Accessible(g, rows, cols, limit, c.0, c.1)
    ensures RowMajor(RowAccessible(g, rows, cols, limit, i, n))
    decreases n
  {
    if n > 1 {
      var p := RowAccessible(g, rows, cols, limit, i, n - 1);
      RowAccessibleMembers(g, rows, cols, limit, i, n - 1);
      var extra: seq<(nat, nat)> := if Accessible(g, rows, cols, limit, i, n - 1) then [(i, n - 1)] else [];
      assert RowAccessible(g, rows, cols, limit, i, n) == p + extra;
      forall c | c in p + extra
        ensures c.0 == i && 1 <= c.1 < n && Accessible(g, rows, cols, limit, c.0, c.1)
      {
        if c !in p {
          assert c == (i, n - 1);
        }
      }
      assert forall x :: 0 <= x < |p| ==> Before(p[x], (i, n - 1)) by {
        forall x | 0 <= x < |p|
          ensures Before(p[x], (i, n - 1))
        {
          assert p[x] in p;
        }
      }
    }
  }

  /**
   * The scan order lists exactly the accessible interior cells of rows
   * `1..m`, each once, in row-major order.
   */
  lemma {:induction false} GridAccessibleMembers(g: Grid, rows: nat, cols: nat, limit: nat, m: nat)
    requires Scannable(g, rows, cols) && (m <= 1 || m < rows)
    ensures forall c :: c in GridAccessible(g, rows, cols, limit, m) <==>
      Interior(rows, cols, c.0, c.1) && c.0 < m && Accessible(g, rows, cols, limit, c.0, c.1)
    ensures RowMajor(GridAccessible(g, rows, cols, limit, m))
    decreases m
  {
    if m > 1 {
      var p := GridAccessible(g, rows, cols, limit, m - 1);
      var q := RowAccessible(g, rows, cols, limit, m - 1, cols - 1);
      GridAccessibleMembers(g, rows, cols, limit, m - 1);
      RowAccessibleMembers(g, rows, cols, limit, m - 1, cols - 1);
      assert forall x, y :: 0 <= x < |p| && 0 <= y < |q| ==> Before(p[x], q[y]) by {
        forall x, y | 0 <= x < |p| && 0 <= y < |q|
          ensures Before(p[x], q[y])
        {
          assert p[x] in p && q[y] in q;
        }
      }
    }
  }

  /** The rolls of the interior. */
  ghost function Rolls(g: Grid, rows: nat, cols: nat): set<(nat, nat)>
    requires Covers(g, rows, cols)
  {
    set i: nat, j: nat | 1 <= i < rows - 1 && 1 <= j < cols - 1 && g[i][j] != 0 :: (i, j)
  }

  /** The coordinates a sequence lists. */
  function Elements(s: seq<(nat, nat)>): set<(nat, nat)> {
    set c | c in s
  }

  /** A sequence without repeats has as many elements as its set. */
  lemma {:induction false} RowMajorCard(s: seq<(nat, nat)>)
    requires RowMajor(s)
    ensures |Elements(s)| == |s|
  {
    if s != [] {
      var p := s[..|s| - 1];
      var last := s[|s| - 1];
      RowMajorCard(p);
      assert last !in p by {
        forall x | 0 <= x < |p| ensures p[x] != last {
          assert Before(s[x], s[|s| - 1]);
        }
      }
      assert Elements(s) == Elements(p) + {last};
    }
  }

  /** A subset has no more elements than its superset. */
  lemma SubsetCard<T>(a: set<T>, b: set<T>)
    requires a <= b
    ensures |a| <= |b|
  {
    assert b == a + (b - a);
    assert a * (b - a) == {};
  }

  /**
   * The scan finds every accessible roll once and nothing else, so the
   * number found is the number of accessible rolls, at most the number of rolls.
   */
  lemma AccessibleCount(g: Grid, rows: nat, cols: nat, limit: nat)
    requires Scannable(g, rows, cols)
    ensures var found := AllAccessible(g, rows, cols, limit);
      Elements(found) == (set i: nat, j: nat | 1 <= i < rows - 1 && 1 <= j < cols - 1 && Accessible(g, rows, cols, limit, i, j) :: (i, j))
      && |found| == |Elements(found)|
      && Elements(found) <= Rolls(g, rows, cols)
      && |found| <= |Rolls(g, rows, cols)|
  {
    var found := AllAccessible(g, rows, cols, limit);
    GridAccessibleMembers(g, rows, cols, limit, rows - 1);
    RowMajorCard(found);
    SubsetCard(Elements(found), Rolls(g, rows, cols));
  }

  // ---------------------------------------------------------------------------
  // `find_n_accessible` and `process`.

  /**
   * `find_n_accessible`: scans rows `1..n_rows - 1` and columns
   * `1..n_cols - 1`, counting the rolls with fewer than five rolls around them.
   */
  method FindNAccessible(grid: Grid, nRows: nat, nCols: nat) returns (total: nat)
    requires Scannable(grid, nRows, nCols)
    ensures total == |AllAccessible(grid, nRows, nCols, 5)|
  {
    total := 0;
    var i := 1;
    while i < nRows - 1
      invariant 1 <= i && (i == 1 || i < nRows)
      invariant total == |GridAccessible(grid, nRows, nCols, 5, i)|
    {
      var j := 1;
      while j < nCols - 1
        invariant 1 <= j && (j == 1 || j < nCols)
        invariant total == |GridAccessible(grid, nRows, nCols, 5, i)| + |RowAccessible(grid, nRows, nCols, 5, i, j)|
      {
        InteriorHasNeighbourhood(grid, nRows, nCols, i, j);
        var nBlocking := FindNBlocking(grid, i, j);
        if nBlocking.Some? && nBlocking.value < 5 {
          total := total + 1;
        }
        j := j + 1;
      }
      i := i + 1;
    }
  }

  /**
   * `process` without the file: the lines read as a grid, padded, and its
   * accessible rolls counted. A rectangular grid is always accepted.
   */
  method Process(lines: seq<string>) returns (r: Result<nat, GridError>)
    ensures ReadGrid(lines).Err? ==> r == Err(ReadGrid(lines).error)
    ensures ReadGrid(lines).Ok? && lines == [] ==> r == Err(EmptyGrid)
    ensures r.Ok? ==> (lines != [] && ReadGrid(lines).Ok?
      && var vec := ReadGrid(lines).value;
         var rows, cols := |vec| + 2, |vec[0]| + 2;
         r.value == |AllAccessible(Padded(vec, rows, cols), rows, cols, 5)|)
    ensures ReadGrid(lines).Ok? && lines != [] && IsRect(ReadGrid(lines).value, |lines|, |lines[0]|) ==> r.Ok?
  {
    var text := ReadGrid(lines);
    if text.Err? {
      return Err(text.error);
    }
    var vec := text.value;
    if vec != [] && IsRect(vec, |vec|, |vec[0]|) {
      PaddedFrame(vec, |vec|, |vec[0]|);
    }
    var padded := BufferedGridCorrected(vec);
    if padded.Err? {
      return Err(padded.error);
    }
    var (grid, nRows, nCols) := padded.value;
    var total := FindNAccessible(grid, nRows, nCols);
    return Ok(total);
  }
}
