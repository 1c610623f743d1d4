/**
 * Day 7, part 1 (day-07/src/part1.rs): a beam enters at `S` and falls row by
 * row through air; a splitter under a beam sends beams to its left and right
 * neighbours. `pew` advances the beams by one row and counts the splitters it
 * hits; `pew_pew` does so for every row. The panics of `pew` (the `j - 1`
 * underflow, an index past the end of a row) are the `None` results.
 */
module Day07Part1 {
  import opened Wrappers
  import opened Text

  datatype Tachyon = Air | Beam | Splitter

  type Row = seq<Tachyon>

  // ---------------------------------------------------------------------------
  // One row of `pew`, as a specification.

  /**
   * The effect of column `j` of `pew`: nothing unless a beam is above; air
   * under a beam becomes beam; a splitter under a beam turns both its
   * neighbours into beam (whatever they held) and counts one. `None` is the
   * panic: column `j` missing from a row, or a hit splitter in the first or
   * the last column.
   */
  function PewCell(above: Row, row: Row, j: nat): (r: Option<(Row, nat)>)
    ensures r.Some? ==> |r.value.0| == |row| && r.value.1 <= 1
    ensures r.Some? ==> forall k :: 0 <= k < |row| ==> r.value.0[k] == row[k] || r.value.0[k] == Beam
    ensures r.Some? && r.value.1 == 1 ==> j < |above| && j < |row| && above[j] == Beam && row[j] == Splitter
  {
    if j >= |above| then None
    else if above[j] != Beam then Some((row, 0))
    else if j >= |row| then None
    else match row[j]
      case Air => Some((row[j := Beam], 0))
      case Beam => Some((row, 0))
      case Splitter =>
        if j == 0 || j + 1 >= |row| then None
        else Some((row[j - 1 := Beam][j + 1 := Beam], 1))
  }

  /** Columns `j..nCol` of `pew` applied in order to `row`, the count carried in `count`. */
  function PewFrom(above: Row, row: Row, nCol: nat, j: nat, count: nat): (r: Option<(Row, nat)>)
    ensures r.Some? ==> |r.value.0| == |row| && count <= r.value.1
    decreases nCol - j
  {
    if j >= nCol then Some((row, count))
    else match PewCell(above, row, j)
      case None => None
      case Some((next, hit)) => PewFrom(above, next, nCol, j + 1, count + hit)
  }

  /** `pew` on row `row` under row `above`: the new row and the number of splitters hit. */
  function PewRow(above: Row, row: Row, nCol: nat): Option<(Row, nat)> {
    PewFrom(above, row, nCol, 0, 0)
  }

  /** A splitter in column `k` with a beam above it. */
  predicate Hit(above: Row, row: Row, k: int) {
    0 <= k < |above| && k < |row| && above[k] == Beam && row[k] == Splitter
  }

  /** The number of columns in `j..nCol` where a splitter has a beam above it. */
  function HitsIn(above: Row, row: Row, j: nat, nCol: nat): nat
    decreases nCol - j
  {
    if j >= nCol then 0 else (if Hit(above, row, j) then 1 else 0) + HitsIn(above, row, j + 1, nCol)
  }

  /** Turning cells into beam never adds a hit. */
  lemma {:induction false} HitsInMonotone(above: Row, row: Row, next: Row, j: nat, nCol: nat)
    requires |next| == |row|
    requires forall k :: 0 <= k < |row| ==> next[k] == row[k] || next[k] == Beam
    ensures HitsIn(above, next, j, nCol) <= HitsIn(above, row, j, nCol)
    decreases nCol - j
  {
    if j < nCol {
      HitsInMonotone(above, row, next, j + 1, nCol);
    }
  }

  /**
   * What `pew` does to a row in every case: the row keeps its length, cells
   * only ever become beam, air and beam under a beam end as beam, and every
   * splitter counted is a distinct splitter of the old row under a beam.
   */
  lemma {:induction false} PewOnlyAddsBeams(above: Row, row: Row, nCol: nat, j: nat, count: nat)
    requires PewFrom(above, row, nCol, j, count).Some?
    ensures var (r, c) := PewFrom(above, row, nCol, j, count).value;
      |r| == |row| && count <= c <= count + HitsIn(above, row, j, nCol)
      && (forall k :: 0 <= k < |row| ==> r[k] == row[k] || r[k] == Beam)
      && (forall k :: j <= k < nCol && k < |above| && k < |row| && above[k] == Beam && row[k] != Splitter ==> r[k] == Beam)
    decreases nCol - j
  {
    if j < nCol {
      var (next, hit) := PewCell(above, row, j).value;
      PewOnlyAddsBeams(above, next, nCol, j + 1, count + hit);
      HitsInMonotone(above, row, next, j + 1, nCol);
      var (r, c) := PewFrom(above, row, nCol, j, count).value;
      assert (r, c) == PewFrom(above, next, nCol, j + 1, count + hit).value;
      if j < |above| && j < |row| && above[j] == Beam && row[j] != Splitter {
        assert next[j] == Beam;
      }
    }
  }

  // ---------------------------------------------------------------------------
  // The closed form of a row when no two splitters stand side by side.

  /** No two splitters are neighbours in the row. */
  predicate NoAdjacentSplitters(row: Row) {
    forall k :: 0 < k < |row| ==> !(row[k - 1] == Splitter && row[k] == Splitter)
  }

  /**
   * The row once columns `0..j` have been processed: splitters stay;
   * beams stay; a processed cell under a beam and a neighbour of a
   * processed hit splitter become beam; the rest is unchanged.
   */
  function Partial(above: Row, row: Row, j: nat): (r: Row)
    requires |above| == |row|
    ensures |r| == |row|
  {
    seq(|row|, k requires 0 <= k < |row| =>
      if row[k] == Splitter then Splitter
      else if row[k] == Beam || (k < j && above[k] == Beam) || (0 < k <= j && Hit(above, row, k - 1))
        || (k + 1 < j && Hit(above, row, k + 1)) then Beam
      else row[k])
  }

  /** A hit splitter in the first column, or in the last one, and not yet passed at column `j`. */
  predicate EdgeHitFrom(above: Row, row: Row, j: nat) {
    (j == 0 && Hit(above, row, 0)) || (0 < |row| && j < |row| && Hit(above, row, |row| - 1))
  }

  /** One column of `pew` takes the closed form at `j` to the closed form at `j + 1`. */
  lemma PartialStep(above: Row, row: Row, j: nat)
    requires |above| == |row| && j < |row| && NoAdjacentSplitters(row)
    ensures var cell := PewCell(above, Partial(above, row, j), j);
      if Hit(above, row, j) && (j == 0 || j + 1 == |row|) then cell.None?
      else cell == Some((Partial(above, row, j + 1), if Hit(above, row, j) then 1 else 0))
  {
    var cur, next := Partial(above, row, j), Partial(above, row, j + 1);
    if above[j] != Beam {
      assert cur == next;
    } else if row[j] == Splitter {
      if 0 < j && j + 1 < |row| {
        assert row[j - 1] != Splitter && row[j + 1] != Splitter;
        assert cur[j - 1 := Beam][j + 1 := Beam] == next;
      }
    } else {
      assert cur[j := Beam] == next;
      if cur[j] == Beam {
        assert cur[j := Beam] == cur;
      }
    }
  }

  /**
   * From the closed form at column `j`, the rest of `pew` ends in the
   * closed form with every hit counted, unless a hit splitter still ahead
   * stands in an edge column.
   */
  lemma {:induction false} PartialRun(above: Row, row: Row, j: nat, count: nat)
    requires |above| == |row| && j <= |row| && NoAdjacentSplitters(row)
    ensures PewFrom(above, Partial(above, row, j), |row|, j, count)
      == if EdgeHitFrom(above, row, j) then None
         else Some((Partial(above, row, |row|), count + HitsIn(above, row, j, |row|)))
    decreases |row| - j
  {
    if j < |row| {
      PartialStep(above, row, j);
      PartialRun(above, row, j + 1, count + if Hit(above, row, j) then 1 else 0);
    }
  }

  /**
   * With no two splitters side by side, `pew` on a full row panics exactly
   * when a hit splitter stands in the first or the last column; otherwise
   * it counts every splitter under a beam, keeps every splitter, and turns
   * into beam exactly the air under a beam and the neighbours of hit
   * splitters.
   */
  lemma PewClosedForm(above: Row, row: Row)
    requires |above| == |row| && NoAdjacentSplitters(row)
    ensures PewRow(above, row, |row|)
      == if EdgeHitFrom(above, row, 0) then None
         else Some((Partial(above, row, |row|), HitsIn(above, row, 0, |row|)))
  {
    assert Partial(above, row, 0) == row;
    PartialRun(above, row, 0, 0);
  }

  // ---------------------------------------------------------------------------
  // `pew_pew`, as a specification.

  /** Rows `i..nRow` of the grid advanced in order, each under the already advanced row above it. */
  function PewRowsFrom(g: seq<Row>, nCol: nat, i: nat, nRow: nat, count: nat): (r: Option<(seq<Row>, nat)>)
    requires 1 <= i && nRow <= |g|
    ensures r.Some? ==> |r.value.0| == |g|
    decreases nRow - i
  {
    if i >= nRow then Some((g, count))
    else match PewRow(g[i - 1], g[i], nCol)
      case None => None
      case Some((row, hits)) => PewRowsFrom(g[i := row], nCol, i + 1, nRow, count + hits)
  }

  /** Advancing rows from `i` on leaves the rows above `i` and the number of rows as they were. */
  lemma {:induction false} PewRowsKeepsAbove(g: seq<Row>, nCol: nat, i: nat, nRow: nat, count: nat)
    requires 1 <= i && nRow <= |g| && PewRowsFrom(g, nCol, i, nRow, count).Some?
    ensures var (h, c) := PewRowsFrom(g, nCol, i, nRow, count).value;
      count <= c && forall k :: 0 <= k < i && k < |g| ==> h[k] == g[k]
    decreases nRow - i
  {
    if i < nRow {
      var (row, hits) := PewRow(g[i - 1], g[i], nCol).value;
      PewRowsKeepsAbove(g[i := row], nCol, i + 1, nRow, count + hits);
    }
  }

  /** Every row has `nCol` cells and no two splitters side by side. */
  predicate Sparse(g: seq<Row>, nCol: nat) {
    forall k :: 0 <= k < |g| ==> |g[k]| == nCol && NoAdjacentSplitters(g[k])
  }

  /** The splitters of rows `i..nRow` with a beam directly above them. */
  function LitSplitters(g: seq<Row>, i: nat, nRow: nat): nat
    requires 1 <= i && nRow <= |g|
    decreases nRow - i
  {
    if i >= nRow then 0 else HitsIn(g[i - 1], g[i], 0, |g[i]|) + LitSplitters(g, i + 1, nRow)
  }

  lemma {:induction false} LitSplittersFrame(g: seq<Row>, h: seq<Row>, i: nat, nRow: nat)
    requires 1 <= i && nRow <= |g| == |h|
    requires forall k :: i - 1 <= k < nRow ==> h[k] == g[k]
    ensures LitSplitters(h, i, nRow) == LitSplitters(g, i, nRow)
    decreases nRow - i
  {
    if i < nRow {
      LitSplittersFrame(g, h, i + 1, nRow);
    }
  }

  /** A row advanced in closed form keeps its splitters, so it counts the same hits. */
  lemma {:induction false} SameSplittersSameHits(above: Row, row: Row, next: Row, j: nat, nCol: nat)
    requires |next| == |row|
    requires forall k :: 0 <= k < |row| ==> (next[k] == Splitter <==> row[k] == Splitter)
    ensures HitsIn(above, next, j, nCol) == HitsIn(above, row, j, nCol)
    decreases nCol - j
  {
    if j < nCol {
      SameSplittersSameHits(above, row, next, j + 1, nCol);
    }
  }

  /**
   * On a rectangular grid with no two splitters side by side in any row,
   * `pew_pew` (when it does not panic) counts exactly the splitters of the
   * final grid that have a beam directly above them.
   */
  lemma {:induction false} PewPewCountsLitSplitters(g: seq<Row>, nCol: nat, i: nat, nRow: nat, count: nat)
    requires 1 <= i && nRow <= |g| && Sparse(g, nCol)
    requires PewRowsFrom(g, nCol, i, nRow, count).Some?
    ensures var (h, c) := PewRowsFrom(g, nCol, i, nRow, count).value;
      c == count + LitSplitters(h, i, nRow)
    decreases nRow - i
  {
    if i < nRow {
      PewClosedForm(g[i - 1], g[i]);
      var (row, hits) := PewRow(g[i - 1], g[i], nCol).value;
      var g' := g[i := row];
      assert row == Partial(g[i - 1], g[i], nCol);
      assert Sparse(g', nCol) by {
        forall k | 0 < k < |row|
          ensures !(row[k - 1] == Splitter && row[k] == Splitter)
        {
          assert row[k - 1] == Splitter ==> g[i][k - 1] == Splitter;
          assert row[k] == Splitter ==> g[i][k] == Splitter;
        }
      }
      PewPewCountsLitSplitters(g', nCol, i + 1, nRow, count + hits);
      PewRowsKeepsAbove(g', nCol, i + 1, nRow, count + hits);
      var (h, c) := PewRowsFrom(g, nCol, i, nRow, count).value;
      assert (h, c) == PewRowsFrom(g', nCol, i + 1, nRow, count + hits).value;
      assert h[i - 1] == g[i - 1] && h[i] == row;
      SameSplittersSameHits(g[i - 1], g[i], row, 0, nCol);
    }
  }

  // ---------------------------------------------------------------------------
  // `AirSpace`.

  class AirSpace {
    var grid: seq<Row>
    var startIndex: nat
    var nCol: nat
    var nRow: nat

    /** The struct literal `AirSpace { grid, start_index, n_col, n_row }`. */
    constructor (grid: seq<Row>, startIndex: nat, nCol: nat, nRow: nat)
      ensures this.grid == grid && this.startIndex == startIndex && this.nCol == nCol && this.nRow == nRow
    {
      this.grid := grid;
      this.startIndex := startIndex;
      this.nCol := nCol;
      this.nRow := nRow;
    }

    /** `insert_beam`: cell `(i, j)` becomes beam, whatever it held, splitters included. */
    method InsertBeam(i: nat, j: nat)
      requires i < |grid| && j < |grid[i]|
      modifies this
      ensures grid == old(grid)[i := old(grid)[i][j := Beam]]
      ensures startIndex == old(startIndex) && nCol == old(nCol) && nRow == old(nRow)
    {
      grid := grid[i := grid[i][j := Beam]];
    }

    /**
     * `pew(row_index)`: columns `0..n_col` in order, each looking at the
     * cell above it. It writes only row `row_index`, which ends as
     * `PewRow` says; `None` is a panic, after which the grid no longer matters.
     */
    method Pew(rowIndex: nat) returns (r: Option<nat>)
      requires 1 <= rowIndex < |grid|
      modifies this
      ensures var res := PewRow(old(grid[rowIndex - 1]), old(grid[rowIndex]), old(nCol));
        (r.Some? <==> res.Some?)
        && (r.Some? ==> r.value == res.value.1 && grid == old(grid)[rowIndex := res.value.0])
      ensures startIndex == old(startIndex) && nCol == old(nCol) && nRow == old(nRow)
    {
      ghost var above, start := grid[rowIndex - 1], grid[rowIndex];
      var visited := 0;
      for j := 0 to nCol
        invariant startIndex == old(startIndex) && nCol == old(nCol) && nRow == old(nRow)
        invariant |grid| == |old(grid)| && grid == old(grid)[rowIndex := grid[rowIndex]]
        invariant PewFrom(above, grid[rowIndex], nCol, j, visited) == PewRow(above, start, nCol)
      {
        if j >= |grid[rowIndex - 1]| {
          return None;
        }
        var incoming := grid[rowIndex - 1][j];
        if incoming == Beam {
          if j >= |grid[rowIndex]| {
            return None;
          }
          match grid[rowIndex][j]
          case Air =>
            InsertBeam(rowIndex, j);
          case Splitter =>
            if j == 0 {
              return None;
            }
            InsertBeam(rowIndex, j - 1);
            if j + 1 >= |grid[rowIndex]| {
              return None;
            }
            InsertBeam(rowIndex, j + 1);
            visited := visited + 1;
          case Beam =>
        }
      }
      return Some(visited);
    }

    /** `pew_pew`: `pew` on rows `1..n_row` in order, the counts added up. */
    method PewPew() returns (r: Option<nat>)
      requires nRow <= |grid|
      modifies this
      ensures var res := PewRowsFrom(old(grid), old(nCol), 1, old(nRow), 0);
        (r.Some? <==> res.Some?)
        && (r.Some? ==> r.value == res.value.1 && grid == res.value.0)
      ensures startIndex == old(startIndex) && nCol == old(nCol) && nRow == old(nRow)
    {
      var visited := 0;
      var i := 1;
      while i < nRow
        invariant 1 <= i && nRow <= |grid| == |old(grid)|
        invariant startIndex == old(startIndex) && nCol == old(nCol) && nRow == old(nRow)
        invariant PewRowsFrom(grid, nCol, i, nRow, visited) == PewRowsFrom(old(grid), nCol, 1, nRow, 0)
        decreases nRow - i
      {
        var hits := Pew(i);
        if hits.None? {
          return None;
        }
        visited := visited + hits.value;
        i := i + 1;
      }
      return Some(visited);
    }
  }

  // ---------------------------------------------------------------------------
  // `From<String>`.

  /** The airspace that `From<String>` builds, as values. */
  datatype Layout = Layout(grid: seq<Row>, startIndex: nat, nCol: nat, nRow: nat)

  /** The panics of `From<String>`: `grid[0]` of no lines, `unreachable!` on another character. */
  datatype ParseError = NoLines | BadChar(line: nat, column: nat)

  predicate IsCell(c: char) {
    c == '.' || c == '^' || c == 'S'
  }

  function CellOf(c: char): (t: Tachyon)
    requires IsCell(c)
    ensures t == Beam <==> c == 'S'
    ensures t == Splitter <==> c == '^'
    ensures t == Air <==> c == '.'
  {
    if c == 'S' then Beam else if c == '^' then Splitter else Air
  }

  /** The column of the last `S` of the line. */
  function LastStartIn(line: string): (r: Option<nat>)
    ensures r.None? <==> 'S' !in line
    ensures r.Some? ==> r.value < |line| && line[r.value] == 'S' && 'S' !in line[r.value + 1..]
  {
    if line == [] then None
    else if line[|line| - 1] == 'S' then Some(|line| - 1)
    else
      var r := LastStartIn(line[..|line| - 1]);
      assert line == line[..|line| - 1] + [line[|line| - 1]];
      r
  }

  /** The column of the last `S` in reading order, which the assignments to `start` leave behind. */
  function LastStart(lines: seq<string>): Option<nat> {
    if lines == [] then None
    else match LastStartIn(lines[|lines| - 1])
      case Some(k) => Some(k)
      case None => LastStart(lines[..|lines| - 1])
  }

  /**
   * `LastStart` is `None` exactly when no line holds an `S`; otherwise it
   * is the column of an `S` with no `S` after it, on its line or below.
   */
  lemma {:induction false} LastStartIsLast(lines: seq<string>)
    ensures LastStart(lines).None? <==> forall i :: 0 <= i < |lines| ==> 'S' !in lines[i]
    ensures LastStart(lines).Some? ==> exists i :: (0 <= i < |lines| && LastStart(lines).value < |lines[i]|
      && lines[i][LastStart(lines).value] == 'S' && 'S' !in lines[i][LastStart(lines).value + 1..]
      && forall k :: i < k < |lines| ==> 'S' !in lines[k])
  {
    if lines != [] {
      var init, last := lines[..|lines| - 1], lines[|lines| - 1];
      LastStartIsLast(init);
      if LastStartIn(last).None? {
        assert forall i :: 0 <= i < |init| ==> init[i] == lines[i];
        if LastStart(init).Some? {
          var i :| 0 <= i < |init| && LastStart(init).value < |init[i]|
            && init[i][LastStart(init).value] == 'S' && 'S' !in init[i][LastStart(init).value + 1..]
            && forall k :: i < k < |init| ==> 'S' !in init[k];
          assert forall k :: i < k < |lines| ==> 'S' !in lines[k];
        }
      } else {
        assert lines[|lines| - 1] == last;
      }
    }
  }

  /** Every character of the line is a cell. */
  predicate CellLine(line: string) {
    forall k :: 0 <= k < |line| ==> IsCell(line[k])
  }

  /** Every character of every line is a cell. */
  predicate CellLines(lines: seq<string>) {
    forall i :: 0 <= i < |lines| ==> CellLine(lines[i])
  }

  /** The column of the first character of the line that is not a cell. */
  function FirstBadIn(line: string): (r: Option<nat>)
    ensures r.None? <==> CellLine(line)
    ensures r.Some? ==> r.value < |line| && !IsCell(line[r.value]) && CellLine(line[..r.value])
  {
    if line == [] then None
    else if !IsCell(line[0]) then Some(0)
    else match FirstBadIn(line[1..])
      case None => None
      case Some(k) =>
        assert line[..k + 1] == [line[0]] + line[1..][..k];
        Some(k + 1)
  }

  /** The first character of the text that is not a cell, in reading order, as line and column. */
  function FirstBadChar(lines: seq<string>): (r: Option<(nat, nat)>)
    ensures r.None? <==> CellLines(lines)
    ensures r.Some? ==> (r.value.0 < |lines| && r.value.1 < |lines[r.value.0]| && !IsCell(lines[r.value.0][r.value.1])
      && CellLines(lines[..r.value.0]) && CellLine(lines[r.value.0][..r.value.1]))
  {
    if lines == [] then None
    else match FirstBadIn(lines[0])
      case Some(k) => Some((0, k))
      case None =>
        match FirstBadChar(lines[1..])
        case None => None
        case Some(p) =>
          assert lines[..p.0 + 1] == [lines[0]] + lines[1..][..p.0];
          Some((p.0 + 1, p.1))
  }

  /** A line read cell by cell. */
  function RowOf(line: string): (r: Row)
    requires CellLine(line)
    ensures |r| == |line| && forall k :: 0 <= k < |line| ==> r[k] == CellOf(line[k])
  {
    seq(|line|, k requires 0 <= k < |line| => CellOf(line[k]))
  }

  /** Every line read cell by cell. */
  function Cells(lines: seq<string>): (g: seq<Row>)
    requires CellLines(lines)
    ensures |g| == |lines| && forall i :: 0 <= i < |lines| ==> g[i] == RowOf(lines[i])
  {
    seq(|lines|, i requires 0 <= i < |lines| => RowOf(lines[i]))
  }

  /** `From<String>`: the airspace built from the text's lines, or the panic it meets first. */
  function Parse(s: string): (r: Result<Layout, ParseError>)
    ensures r.Ok? <==> Lines(s) != [] && CellLines(Lines(s))
  {
    var lines := Lines(s);
    match FirstBadChar(lines)
    case Some(p) => Err(BadChar(p.0, p.1))
    case None =>
      if lines == [] then Err(NoLines)
      else Ok(Layout(Cells(lines), OrZero(LastStart(lines)), |lines[0]|, |lines|))
  }

  /**
   * What `From<String>` builds: one row per line, `.` air, `^` splitter,
   * `S` beam; `start_index` the column of the last `S` in reading order
   * (`LastStartIsLast`), 0 when there is none; `n_col` the first line's
   * length and `n_row` the number of lines.
   */
  lemma ParseBuilds(s: string)
    ensures var lines := Lines(s); var r := Parse(s);
      r.Ok? ==> (r.value.nRow == |lines| == |r.value.grid| && r.value.nCol == |lines[0]|
        && (forall i :: 0 <= i < |lines| ==> (|r.value.grid[i]| == |lines[i]|
          && forall k :: 0 <= k < |lines[i]| ==> r.value.grid[i][k] == CellOf(lines[i][k])))
        && r.value.startIndex == OrZero(LastStart(lines)))
  {
  }

  /**
   * The panics of `From<String>`: a text with no lines, once every
   * character is a cell; otherwise the first character that is not one.
   */
  lemma ParseFails(s: string)
    ensures var lines := Lines(s); var r := Parse(s);
      r.Err? ==> (if CellLines(lines) then lines == [] && r == Err(NoLines)
        else (r.error.BadChar? && r.error.line < |lines| && r.error.column < |lines[r.error.line]|
          && !IsCell(lines[r.error.line][r.error.column])
          && CellLines(lines[..r.error.line]) && CellLine(lines[r.error.line][..r.error.column])))
  {
  }

  function OrZero(o: Option<nat>): nat {
    if o.Some? then o.value else 0
  }

  /** Reading one more character moves the last `S` to it exactly when it is an `S`. */
  lemma LastStartStep(lines: seq<string>, i: nat, k: nat)
    requires i < |lines| && k < |lines[i]|
    ensures OrZero(LastStart(lines[..i] + [lines[i][..k + 1]]))
      == if lines[i][k] == 'S' then k else OrZero(LastStart(lines[..i] + [lines[i][..k]]))
  {
    var p, line := lines[..i], lines[i];
    var l1, l0 := p + [line[..k + 1]], p + [line[..k]];
    assert l1[..|l1| - 1] == p && l0[..|l0| - 1] == p;
    assert line[..k + 1][..k] == line[..k];
  }

  /** The first bad character found by the scan is the one `FirstBadChar` names. */
  lemma {:induction false} FirstBadInAt(line: string, k: nat)
    requires k < |line| && !IsCell(line[k]) && CellLine(line[..k])
    ensures FirstBadIn(line) == Some(k)
  {
    if k > 0 {
      assert line[1..][..k - 1] == line[..k][1..];
      FirstBadInAt(line[1..], k - 1);
    }
  }

  lemma {:induction false} FirstBadCharAt(lines: seq<string>, i: nat, k: nat)
    requires i < |lines| && k < |lines[i]| && !IsCell(lines[i][k])
    requires CellLines(lines[..i]) && CellLine(lines[i][..k])
    ensures FirstBadChar(lines) == Some((i, k))
  {
    if i == 0 {
      FirstBadInAt(lines[0], k);
    } else {
      assert lines[..i][0] == lines[0];
      assert lines[1..][..i - 1] == lines[..i][1..];
      FirstBadCharAt(lines[1..], i - 1, k);
    }
  }

  /**
   * The closure of `From<String>` over line `i`: its cells in order, each
   * `S` moving `start` to its column; or the column of its first character
   * that is not a cell.
   */
  method ReadLine(lines: seq<string>, i: nat, start: nat) returns (r: Result<(Row, nat), nat>)
    requires i < |lines| && start == OrZero(LastStart(lines[..i]))
    ensures r.Ok? <==> CellLine(lines[i])
    ensures r.Ok? ==> r.value.0 == RowOf(lines[i]) && r.value.1 == OrZero(LastStart(lines[..i + 1]))
    ensures r.Err? ==> r.error < |lines[i]| && !IsCell(lines[i][r.error]) && CellLine(lines[i][..r.error])
  {
    var line := lines[i];
    var row: Row := [];
    var start := start;
    assert (lines[..i] + [line[..0]])[..i] == lines[..i];
    for k := 0 to |line|
      invariant CellLine(line[..k])
      invariant |row| == k && forall k' :: 0 <= k' < k ==> row[k'] == CellOf(line[k'])
      invariant start == OrZero(LastStart(lines[..i] + [line[..k]]))
    {
      LastStartStep(lines, i, k);
      var c := line[k];
      if c == 'S' {
        start := k;
        row := row + [Beam];
      } else if c == '.' {
        row := row + [Air];
      } else if c == '^' {
        row := row + [Splitter];
      } else {
        return Err(k);
      }
      assert line[..k + 1] == line[..k] + [c];
    }
    assert line[..|line|] == line;
    assert lines[..i] + [line[..|line|]] == lines[..i + 1];
    assert row == RowOf(line);
    return Ok((row, start));
  }

  /**
   * `From<String>`: the lines read in order; the airspace it builds, or
   * the panic it meets first, is `Parse`'s.
   */
  method From(s: string) returns (r: Result<Layout, ParseError>)
    ensures r == Parse(s)
  {
    var lines := Lines(s);
    var start := 0;
    var grid: seq<Row> := [];
    for i := 0 to |lines|
      invariant CellLines(lines[..i]) && grid == Cells(lines[..i])
      invariant start == OrZero(LastStart(lines[..i]))
    {
      var line := ReadLine(lines, i, start);
      if line.Err? {
        FirstBadCharAt(lines, i, line.error);
        return Err(BadChar(i, line.error));
      }
      assert lines[..i + 1] == lines[..i] + [lines[i]];
      grid := grid + [line.value.0];
      start := line.value.1;
    }
    assert lines[..|lines|] == lines;
    if lines == [] {
      return Err(NoLines);
    }
    return Ok(Layout(grid, start, |grid[0]|, |grid|));
  }

  /**
   * `process` without the file: the text read into an airspace and every
   * row advanced; the number of splitters hit, or `None` for a panic.
   */
  method Process(s: string) returns (r: Option<nat>)
    ensures Parse(s).Err? ==> r.None?
    ensures Parse(s).Ok? ==> var l := Parse(s).value;
      var res := PewRowsFrom(l.grid, l.nCol, 1, l.nRow, 0);
      (r.Some? <==> res.Some?) && (r.Some? ==> r.value == res.value.1)
  {
    var layout := From(s);
    if layout.Err? {
      return None;
    }
    var airspace := new AirSpace(layout.value.grid, layout.value.startIndex, layout.value.nCol, layout.value.nRow);
    r := airspace.PewPew();
  }
}
