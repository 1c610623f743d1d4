/** The day-4 test scenarios of the source, checked against the model's contracts. */
module Day04Examples {
  import opened Wrappers
  import opened Day04Part1
  import opened Day04Part2

  const Nine: Grid := [[1, 2, 3], [4, 5, 6], [7, 8, 9]]
  const NinePadded: Grid := [[0, 0, 0, 0, 0], [0, 1, 2, 3, 0], [0, 4, 5, 6, 0], [0, 7, 8, 9, 0], [0, 0, 0, 0, 0]]

  lemma NinePads()
    ensures FitsPadded(Nine, 5, 5) && Padded(Nine, 5, 5) == NinePadded
  {
    PaddedFrame(Nine, 3, 3);
    var g := Padded(Nine, 5, 5);
    forall a, b | 0 <= a < 5 && 0 <= b < 5
      ensures g[a][b] == NinePadded[a][b]
    {
      if 1 <= a <= 3 && 1 <= b <= 3 {
        assert g[a][b] == Nine[a - 1][b - 1];
      }
    }
    GridsEqual(g, NinePadded, 5, 5);
  }

  /** part1.rs:83-106 and part2.rs:129-152: a 3×3 grid is padded to 5×5, both as written and corrected. */
  method BufferedGridExample() {
    NinePads();
    var r := BufferedGrid(Nine);
    assert r == Ok((NinePadded, 5, 5));
    var s := BufferedGridCorrected(Nine);
    assert s == Ok((NinePadded, 5, 5));
  }

  const Part1Grid: Grid := [[0, 0, 0, 0, 0], [0, 1, 0, 1, 0], [0, 1, 1, 1, 0], [0, 0, 1, 1, 0], [0, 0, 0, 1, 1]]

  /** part1.rs:108-132: the neighbour sums of the interior of the test grid. */
  lemma Part1NeighbourSums(g: Grid)
    requires g == Part1Grid
    ensures NeighbourSum(g, 1, 1) == 2 && g[1][2] == 0 && NeighbourSum(g, 1, 3) == 2
    ensures NeighbourSum(g, 2, 1) == 3 && NeighbourSum(g, 2, 2) == 6 && NeighbourSum(g, 2, 3) == 4
    ensures g[3][1] == 0 && NeighbourSum(g, 3, 2) == 5 && NeighbourSum(g, 3, 3) == 5
  {
  }

  /** part1.rs:134-149: four of the rolls of the test grid have fewer than five neighbours. */
  lemma Part1Accessible(g: Grid)
    requires g == Part1Grid
    ensures |AllAccessible(g, 5, 5, 5)| == 4
  {
    Part1NeighbourSums(g);
    assert RowAccessible(g, 5, 5, 5, 1, 2) == [(1, 1)];
    assert RowAccessible(g, 5, 5, 5, 1, 4) == [(1, 1), (1, 3)];
    assert RowAccessible(g, 5, 5, 5, 2, 2) == [(2, 1)];
    assert RowAccessible(g, 5, 5, 5, 2, 4) == [(2, 1), (2, 3)];
    assert RowAccessible(g, 5, 5, 5, 3, 4) == [];
    assert GridAccessible(g, 5, 5, 5, 2) == [(1, 1), (1, 3)];
  }

  method FindNAccessibleExample() {
    var total := FindNAccessible(Part1Grid, 5, 5);
    Part1Accessible(Part1Grid);
    assert total == 4;
  }

  /** part1.rs:108-132 through the method: floor gives `None`, a roll its neighbour sum. */
  method FindNBlockingExamples() {
    Part1NeighbourSums(Part1Grid);
    var a := FindNBlocking(Part1Grid, 1, 1);
    var b := FindNBlocking(Part1Grid, 1, 2);
    var c := FindNBlocking(Part1Grid, 2, 2);
    var d := FindNBlocking(Part1Grid, 3, 1);
    var e := FindNBlocking(Part1Grid, 3, 3);
    assert a == Some(2) && b == None && c == Some(6) && d == None && e == Some(5);
  }

  const Part2Grid: Grid := [[0, 0, 0, 0, 0], [0, 1, 0, 0, 0], [0, 1, 1, 1, 0], [0, 0, 1, 0, 0], [0, 0, 0, 0, 0]]
  const Part2Emptied: Grid := [[0, 0, 0, 0, 0], [0, 0, 0, 0, 0], [0, 0, 1, 0, 0], [0, 0, 0, 0, 0], [0, 0, 0, 0, 0]]

  const Part2BlockingGrid: Grid := [[0, 0, 0, 0, 0], [0, 1, 0, 0, 0], [0, 1, 1, 1, 0], [0, 0, 1, 1, 0], [0, 0, 0, 0, 0]]

  /** part2.rs:154-178: the neighbour sums of part 2's own test grid, by the same `find_n_blocking`. */
  lemma Part2BlockingSums(g: Grid)
    requires g == Part2BlockingGrid
    ensures NeighbourSum(g, 1, 1) == 2 && g[1][2] == 0 && g[1][3] == 0
    ensures NeighbourSum(g, 2, 1) == 3 && NeighbourSum(g, 2, 2) == 5 && NeighbourSum(g, 2, 3) == 3
    ensures g[3][1] == 0 && NeighbourSum(g, 3, 2) == 4 && NeighbourSum(g, 3, 3) == 3
  {
  }

  method Part2BlockingExamples() {
    Part2BlockingSums(Part2BlockingGrid);
    var a := FindNBlocking(Part2BlockingGrid, 2, 2);
    var b := FindNBlocking(Part2BlockingGrid, 1, 3);
    var c := FindNBlocking(Part2BlockingGrid, 3, 3);
    assert a == Some(5) && b == None && c == Some(3);
  }

  /** The neighbour sums of the grid of the removal tests. */
  lemma Part2NeighbourSums(g: Grid)
    requires g == Part2Grid
    ensures NeighbourSum(g, 1, 1) == 2 && g[1][2] == 0 && g[1][3] == 0
    ensures NeighbourSum(g, 2, 1) == 3 && NeighbourSum(g, 2, 2) == 4 && NeighbourSum(g, 2, 3) == 2
    ensures g[3][1] == 0 && NeighbourSum(g, 3, 2) == 3 && g[3][3] == 0
  {
  }

  lemma Part2Accessible(g: Grid)
    requires g == Part2Grid
    ensures AllAccessible(g, 5, 5, 4) == [(1, 1), (2, 1), (2, 3), (3, 2)]
  {
    Part2NeighbourSums(g);
    assert RowAccessible(g, 5, 5, 4, 1, 2) == [(1, 1)];
    assert RowAccessible(g, 5, 5, 4, 1, 4) == [(1, 1)];
    assert RowAccessible(g, 5, 5, 4, 2, 2) == [(2, 1)];
    assert RowAccessible(g, 5, 5, 4, 2, 4) == [(2, 1), (2, 3)];
    assert RowAccessible(g, 5, 5, 4, 3, 2) == [];
    assert RowAccessible(g, 5, 5, 4, 3, 4) == [(3, 2)];
    assert GridAccessible(g, 5, 5, 4, 2) == [(1, 1)];
  }

  const Part2Small: Grid := [[0, 0, 0, 0, 0], [0, 1, 0, 0, 0], [0, 1, 1, 0, 0], [0, 0, 1, 0, 0], [0, 0, 0, 0, 0]]

  /** part2.rs:180-195: in a grid of four rolls every roll has fewer than four neighbours. */
  lemma Part2SmallAccessible(g: Grid)
    requires g == Part2Small
    ensures AllAccessible(g, 5, 5, 4) == [(1, 1), (2, 1), (2, 2), (3, 2)]
  {
    assert NeighbourSum(g, 1, 1) == 2 && NeighbourSum(g, 2, 1) == 3;
    assert NeighbourSum(g, 2, 2) == 3 && NeighbourSum(g, 3, 2) == 2;
    assert RowAccessible(g, 5, 5, 4, 1, 2) == [(1, 1)];
    assert RowAccessible(g, 5, 5, 4, 1, 4) == [(1, 1)];
    assert RowAccessible(g, 5, 5, 4, 2, 2) == [(2, 1)];
    assert RowAccessible(g, 5, 5, 4, 2, 4) == [(2, 1), (2, 2)];
    assert RowAccessible(g, 5, 5, 4, 3, 2) == [];
    assert RowAccessible(g, 5, 5, 4, 3, 4) == [(3, 2)];
    assert GridAccessible(g, 5, 5, 4, 2) == [(1, 1)];
    assert GridAccessible(g, 5, 5, 4, 3) == [(1, 1), (2, 1), (2, 2)];
  }

  method FindCoordsAccessibleSmallExample() {
    var coords := FindCoordsAccessible(Part2Small, 5, 5);
    Part2SmallAccessible(Part2Small);
    assert |coords| == 4;
  }

  /**
   * part2.rs:197-226: the scan lists four rolls in row-major order.
   */
  method FindCoordsAccessibleExample() {
    var coords := FindCoordsAccessible(Part2Grid, 5, 5);
    Part2Accessible(Part2Grid);
    assert coords == [(1, 1), (2, 1), (2, 3), (3, 2)];
  }

  /** part2.rs:197-226: removing those four rolls leaves the middle roll alone. */
  method ApplyCoordsExample() {
    var coords := [(1, 1), (2, 1), (2, 3), (3, 2)];
    var after := ApplyCoords(Part2Grid, coords);
    Part2Cleared(Part2Grid, coords, after);
    assert after == Part2Emptied;
  }

  lemma Part2Cleared(g: Grid, coords: seq<(nat, nat)>, after: Grid)
    requires g == Part2Grid && coords == [(1, 1), (2, 1), (2, 3), (3, 2)]
    requires SameShape(after, g)
    requires forall i, j :: 0 <= i < |g| && 0 <= j < |g[i]| ==> after[i][j] == if (i, j) in coords then 0 else g[i][j]
    ensures after == Part2Emptied
  {
    forall a, b | 0 <= a < 5 && 0 <= b < 5
      ensures after[a][b] == Part2Emptied[a][b]
    {
      assert after[a][b] == if (a, b) in coords then 0 else g[a][b];
    }
    GridsEqual(after, Part2Emptied, 5, 5);
  }

  lemma Part2Rolls(g: Grid)
    requires g == Part2Grid
    ensures Rolls(g, 5, 5) == {(1, 1), (2, 1), (2, 2), (2, 3), (3, 2)}
    ensures |Rolls(g, 5, 5)| == 5
  {
  }

  /**
   * On the test grid the middle roll keeps four neighbours only while the
   * four others stay, and each of them has fewer than four: no stable
   * thinning keeps a roll, so the rounds remove all five.
   */
  lemma Part2AllRemoved(g: Grid, after: Grid)
    requires g == Part2Grid
    requires Thinned(after, g) && Covers(after, 5, 5) && Stable(after, 5, 5)
    ensures Rolls(after, 5, 5) == {}
  {
    Part2NeighbourSums(g);
    forall i: nat, j: nat | 1 <= i < 4 && 1 <= j < 4 && (i, j) != (2, 2)
      ensures after[i][j] == 0
    {
      NeighboursOnlyDrop(g, after, i, j);
      assert !Accessible(after, 5, 5, 4, i, j);
    }
    assert NeighbourSum(after, 2, 2) == 0;
    assert !Accessible(after, 5, 5, 4, 2, 2);
  }

  /** part2.rs:228-243: all five rolls of the test grid are removed. */
  method RemoveAllTpExample() {
    var total, after := RemoveAllTp(Part2Grid, 5, 5);
    Part2Rolls(Part2Grid);
    Part2AllRemoved(Part2Grid, after);
    assert total == 5;
  }

  /** A 4×4 block of rolls without its corners, padded: every roll has at least four rolls around it. */
  const Block: Grid := [
    [0, 0, 0, 0, 0, 0],
    [0, 0, 1, 1, 0, 0],
    [0, 1, 1, 1, 1, 0],
    [0, 1, 1, 1, 1, 0],
    [0, 0, 1, 1, 0, 0],
    [0, 0, 0, 0, 0, 0]]

  lemma BlockStable(g: Grid)
    requires g == Block
    ensures Covers(g, 6, 6) && Stable(g, 6, 6)
    ensures |Rolls(g, 6, 6)| > 0
  {
    forall i: nat, j: nat | 1 <= i < 5 && 1 <= j < 5
      ensures !Accessible(g, 6, 6, 4, i, j)
    {
      assert NeighbourSum(g, i, j) >= 4 || g[i][j] == 0;
    }
    assert (2, 2) in Rolls(g, 6, 6);
  }

  /** No roll of the block is ever accessible, so `remove_all_tp` removes none. */
  method StableBlockExample() {
    BlockStable(Block);
    StableGridKept(Block, 6, 6);
    var total, after := RemoveAllTp(Block, 6, 6);
    assert total == 0 && after == Block;
  }

  /** The swapped allocation of `buffered_grid` as written, on the one-row grid `@@`. */
  method SwappedAllocationExample() {
    SwappedAllocation();
    var r := BufferedGrid([[1, 1]]);
    assert r.Ok? && r.value.1 == 3 && r.value.2 == 4 && |r.value.0| == 4;
    assert !Covers(r.value.0, r.value.1, r.value.2);
    var s := BufferedGridCorrected([[1, 1]]);
    assert s.Ok? && IsRect(s.value.0, 3, 4);
  }
}
