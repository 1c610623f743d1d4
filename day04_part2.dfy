/**
 * Day 4, part 2 (day-04/src/part2.rs): rolls with fewer than four rolls
 * around them are removed, round after round, until none is left to remove.
 * `buffered_grid` and `find_n_blocking` are part 1's. The grid that
 * `apply_coords` and `remove_all_tp` change through `&mut` is owned by its
 * caller alone, so it is passed in and handed back as a value.
 */
module Day04Part2 {
  import opened Wrappers
  import opened Day04Part1

  /** Same number of rows, each of the same length. */
  predicate SameShape(g: Grid, h: Grid) {
    |g| == |h| && forall i :: 0 <= i < |g| ==> |g[i]| == |h[i]|
  }

  /**
   * `find_coords_accessible`: the rolls with fewer than four rolls around
   * them, in the order of the scan. The allocation of the debug grid,
   * `n_rows - 2` by `n_cols - 2`, underflows below two rows or columns.
   */
  method FindCoordsAccessible(grid: Grid, nRows: nat, nCols: nat) returns (coords: seq<(nat, nat)>)
    requires Covers(grid, nRows, nCols) && 2 <= nRows && 2 <= nCols
    ensures coords == AllAccessible(grid, nRows, nCols, 4)
  {
    coords := [];
    for i := 1 to nRows - 1
      invariant coords == GridAccessible(grid, nRows, nCols, 4, i)
    {
      for j := 1 to nCols - 1
        invariant coords == GridAccessible(grid, nRows, nCols, 4, i) + RowAccessible(grid, nRows, nCols, 4, i, j)
      {
        InteriorHasNeighbourhood(grid, nRows, nCols, i, j);
        var nBlocking := FindNBlocking(grid, i, j);
        if nBlocking.Some? && nBlocking.value < 4 {
          coords := coords + [(i, j)];
        }
      }
    }
  }

  /** Every listed coordinate names a cell of the grid. */
  predicate InGrid(grid: Grid, coords: seq<(nat, nat)>) {
    forall k :: 0 <= k < |coords| ==> coords[k].0 < |grid| && coords[k].1 < |grid[coords[k].0]|
  }

  /** `h` is `g` with some of its cells turned to floor. */
  predicate Thinned(h: Grid, g: Grid) {
    SameShape(h, g) && forall i, j :: 0 <= i < |g| && 0 <= j < |g[i]| ==> h[i][j] == g[i][j] || h[i][j] == 0
  }

  /** `g` with the listed cells turned to floor. */
  function Cleared(g: Grid, coords: seq<(nat, nat)>): (h: Grid)
    ensures Thinned(h, g)
  {
    seq(|g|, i requires 0 <= i < |g| => seq(|g[i]|, j requires 0 <= j < |g[i]| => if (i, j) in coords then 0 else g[i][j]))
  }

  /** Two grids of the same shape with the same cells are equal. */
  lemma SameCells(g: Grid, h: Grid)
    requires SameShape(g, h)
    requires forall i, j :: 0 <= i < |g| && 0 <= j < |g[i]| ==> g[i][j] == h[i][j]
    ensures g == h
  {
    forall i | 0 <= i < |g|
      ensures g[i] == h[i]
    {
      assert forall j :: 0 <= j < |g[i]| ==> g[i][j] == h[i][j];
    }
  }

  /** `apply_coords`: the listed cells become floor, every other cell keeps its value. */
  method ApplyCoords(grid: Grid, coords: seq<(nat, nat)>) returns (after: Grid)
    requires InGrid(grid, coords)
    ensures SameShape(after, grid)
    ensures forall i, j :: 0 <= i < |grid| && 0 <= j < |grid[i]| ==>
      after[i][j] == if (i, j) in coords then 0 else grid[i][j]
    ensures after == Cleared(grid, coords)
  {
    after := grid;
    for k := 0 to |coords|
      invariant SameShape(after, grid)
      invariant forall i, j :: 0 <= i < |grid| && 0 <= j < |grid[i]| ==>
        after[i][j] == if (i, j) in coords[..k] then 0 else grid[i][j]
    {
      var (i, j) := coords[k];
      after := after[i := after[i][j := 0]];
      assert coords[..k + 1] == coords[..k] + [coords[k]];
    }
    assert coords[..|coords|] == coords;
    SameCells(after, Cleared(grid, coords));
  }

  /** Removing a round of accessible rolls takes exactly those rolls out of the grid. */
  lemma RoundRemoves(g: Grid, after: Grid, rows: nat, cols: nat)
    requires Covers(g, rows, cols) && 2 <= rows && 2 <= cols
    requires SameShape(after, g)
    requires forall i, j :: 0 <= i < |g| && 0 <= j < |g[i]| ==>
      after[i][j] == if (i, j) in AllAccessible(g, rows, cols, 4) then 0 else g[i][j]
    ensures Covers(after, rows, cols)
    ensures Rolls(after, rows, cols) == Rolls(g, rows, cols) - Elements(AllAccessible(g, rows, cols, 4))
    ensures |Rolls(after, rows, cols)| == |Rolls(g, rows, cols)| - |AllAccessible(g, rows, cols, 4)|
  {
    var found := AllAccessible(g, rows, cols, 4);
    AccessibleCount(g, rows, cols, 4);
    var before, removed := Rolls(g, rows, cols), Elements(found);
    assert Rolls(after, rows, cols) == before - removed;
    assert before == (before - removed) + removed;
    assert (before - removed) * removed == {};
  }

  /** A roll cannot gain neighbours when cells only ever turn to floor. */
  lemma NeighboursOnlyDrop(g: Grid, h: Grid, row: nat, col: nat)
    requires HasNeighbourhood(g, row, col) && SameShape(h, g)
    requires forall i, j :: 0 <= i < |g| && 0 <= j < |g[i]| ==> h[i][j] == g[i][j] || h[i][j] == 0
    ensures HasNeighbourhood(h, row, col) && NeighbourSum(h, row, col) <= NeighbourSum(g, row, col)
  {
  }

  /** Every roll of the interior has at least four rolls around it. */
  predicate Stable(g: Grid, rows: nat, cols: nat)
    requires Covers(g, rows, cols)
  {
    forall i: nat, j: nat :: 1 <= i < rows - 1 && 1 <= j < cols - 1 ==> !Accessible(g, rows, cols, 4, i, j)
  }

  /** A round finds nothing exactly when every roll has four rolls around it. */
  lemma StableIffNoneFound(g: Grid, rows: nat, cols: nat)
    requires Covers(g, rows, cols) && 2 <= rows && 2 <= cols
    ensures Stable(g, rows, cols) <==> AllAccessible(g, rows, cols, 4) == []
  {
    GridAccessibleMembers(g, rows, cols, 4, rows - 1);
    var found := AllAccessible(g, rows, cols, 4);
    if found != [] {
      var c := found[0];
      assert c in found;
      assert Accessible(g, rows, cols, 4, c.0, c.1);
    } else {
      forall i: nat, j: nat | 1 <= i < rows - 1 && 1 <= j < cols - 1
        ensures !Accessible(g, rows, cols, 4, i, j)
      {
        assert (i, j) !in found;
      }
    }
  }

  /**
   * The rounds of `remove_all_tp`: the accessible rolls of the grid are
   * cleared, all at once, until a round finds none. Each round removes at
   * least one roll. The end result is stable, and only turned cells to floor.
   */
  function Rounds(g: Grid, rows: nat, cols: nat): (h: Grid)
    requires Covers(g, rows, cols) && 2 <= rows && 2 <= cols
    ensures Thinned(h, g) && Covers(h, rows, cols) && Stable(h, rows, cols)
    decreases |Rolls(g, rows, cols)|
  {
    var found := AllAccessible(g, rows, cols, 4);
    if found == [] then
      StableIffNoneFound(g, rows, cols);
      g
    else
      var next := Cleared(g, found);
      RoundRemoves(g, next, rows, cols);
      Rounds(next, rows, cols)
  }

  /** A thinning keeps no roll its grid lacks. */
  lemma ThinnedRolls(h: Grid, g: Grid, rows: nat, cols: nat)
    requires Thinned(h, g) && Covers(g, rows, cols)
    ensures Covers(h, rows, cols) && Rolls(h, rows, cols) <= Rolls(g, rows, cols)
  {
  }

  /** A roll that is accessible in `g` cannot be kept by a stable thinning of `g`. */
  lemma AccessibleNotKept(g: Grid, h: Grid, rows: nat, cols: nat, i: nat, j: nat)
    requires Covers(g, rows, cols) && Thinned(h, g) && Covers(h, rows, cols) && Stable(h, rows, cols)
    requires Interior(rows, cols, i, j) && Accessible(g, rows, cols, 4, i, j)
    ensures h[i][j] == 0
  {
    InteriorHasNeighbourhood(g, rows, cols, i, j);
    NeighboursOnlyDrop(g, h, i, j);
    assert !Accessible(h, rows, cols, 4, i, j);
  }

  /** A stable thinning keeps floor on every roll a round removes. */
  lemma RoundKeepsStable(g: Grid, h: Grid, rows: nat, cols: nat)
    requires Covers(g, rows, cols) && 2 <= rows && 2 <= cols
    requires Thinned(h, g) && Covers(h, rows, cols) && Stable(h, rows, cols)
    ensures Thinned(h, Cleared(g, AllAccessible(g, rows, cols, 4)))
  {
    var found := AllAccessible(g, rows, cols, 4);
    var next := Cleared(g, found);
    GridAccessibleMembers(g, rows, cols, 4, rows - 1);
    forall i: nat, j: nat | i < |next| && j < |next[i]|
      ensures h[i][j] == next[i][j] || h[i][j] == 0
    {
      if (i, j) in found {
        AccessibleNotKept(g, h, rows, cols, i, j);
      } else {
        assert next[i][j] == g[i][j];
      }
    }
  }

  /**
   * The rounds remove no roll they need not: a thinning of `g` in which
   * every roll has four rolls around it is also a thinning of `Rounds(g)`.
   * So `Rounds(g)` is the largest stable thinning of `g`.
   */
  lemma {:induction false} RoundsKeepStable(g: Grid, h: Grid, rows: nat, cols: nat)
    requires Covers(g, rows, cols) && 2 <= rows && 2 <= cols
    requires Thinned(h, g) && Covers(h, rows, cols) && Stable(h, rows, cols)
    ensures Thinned(h, Rounds(g, rows, cols))
    ensures Rolls(h, rows, cols) <= Rolls(Rounds(g, rows, cols), rows, cols)
    decreases |Rolls(g, rows, cols)|
  {
    var found := AllAccessible(g, rows, cols, 4);
    if found != [] {
      var next := Cleared(g, found);
      RoundRemoves(g, next, rows, cols);
      RoundKeepsStable(g, h, rows, cols);
      RoundsKeepStable(next, h, rows, cols);
    } else {
      ThinnedRolls(h, g, rows, cols);
    }
  }

  /** A grid in which every roll has four rolls around it loses none. */
  lemma StableGridKept(g: Grid, rows: nat, cols: nat)
    requires Covers(g, rows, cols) && 2 <= rows && 2 <= cols && Stable(g, rows, cols)
    ensures Rounds(g, rows, cols) == g
  {
    StableIffNoneFound(g, rows, cols);
  }

  /**
   * `remove_all_tp`: rounds of finding the accessible rolls and removing
   * them, until a round finds none. The grid left is `Rounds`'s, and
   * `total` counts the rolls removed.
   */
  method RemoveAllTp(grid: Grid, nRows: nat, nCols: nat) returns (total: nat, after: Grid)
    requires Covers(grid, nRows, nCols) && 2 <= nRows && 2 <= nCols
    ensures after == Rounds(grid, nRows, nCols)
    ensures Rolls(after, nRows, nCols) <= Rolls(grid, nRows, nCols)
    ensures total == |Rolls(grid, nRows, nCols)| - |Rolls(after, nRows, nCols)|
  {
    total := 0;
    after := grid;
    while true
      invariant Covers(after, nRows, nCols)
      invariant Rounds(after, nRows, nCols) == Rounds(grid, nRows, nCols)
      invariant Rolls(after, nRows, nCols) <= Rolls(grid, nRows, nCols)
      invariant total == |Rolls(grid, nRows, nCols)| - |Rolls(after, nRows, nCols)|
      decreases |Rolls(after, nRows, nCols)|
    {
      var accessibleRolls := FindCoordsAccessible(after, nRows, nCols);
      if |accessibleRolls| == 0 {
        break;
      }
      GridAccessibleMembers(after, nRows, nCols, 4, nRows - 1);
      ghost var was := after;
      after := ApplyCoords(after, accessibleRolls);
      RoundRemoves(was, after, nRows, nCols);
      total := total + |accessibleRolls|;
    }
  }

  /**
   * `process` without the file: the lines read as a grid, padded, and all
   * removable rolls removed; the result is how many were.
   */
  method Process(lines: seq<string>) returns (r: Result<nat, GridError>)
    ensures ReadGrid(lines).Err? ==> r == Err(ReadGrid(lines).error)
    ensures ReadGrid(lines).Ok? && lines == [] ==> r == Err(EmptyGrid)
    ensures r.Ok? ==> (lines != [] && ReadGrid(lines).Ok?
      && var vec := ReadGrid(lines).value;
         var rows, cols := |vec| + 2, |vec[0]| + 2;
         var grid := Padded(vec, rows, cols);
         r.value == |Rolls(grid, rows, cols)| - |Rolls(Rounds(grid, rows, cols), rows, cols)|)
    ensures ReadGrid(lines).Ok? && lines != [] && IsRect(ReadGrid(lines).value, |lines|, |lines[0]|) ==> r.Ok?
  {
    var text := ReadGrid(lines);
    if text.Err? {
      return Err(text.error);
    }
    var vec := text.value;
    if vec != [] && IsRect(vec, |vec|, |vec[0]|) {
      PaddedFrame(vec, |vec|, |vec[0]|);
    }
    var padded := BufferedGridCorrected(vec);
    if padded.Err? {
      return Err(padded.error);
    }
    var (grid, nRows, nCols) := padded.value;
    var total, _ := RemoveAllTp(grid, nRows, nCols);
    return Ok(total);
  }
}
