/** The day-7 test scenarios of the source, checked against the model's contracts. */
module Day07Examples {
  import opened Wrappers
  import opened Text
  import opened Day07Part1

  const Above1: Row := [Air, Air, Air, Beam, Air]
  const Below1: Row := [Splitter, Air, Air, Splitter, Air]
  const Above2: Row := [Air, Beam, Air, Beam, Air]

  lemma Pew1Row()
    ensures PewRow(Above1, Below1, 5) == Some(([Splitter, Air, Beam, Splitter, Beam], 1))
  {
    var after := [Splitter, Air, Beam, Splitter, Beam];
    assert PewFrom(Above1, after, 5, 4, 1) == Some((after, 1));
    assert Below1[2 := Beam][4 := Beam] == after;
    assert PewCell(Above1, Below1, 3) == Some((after, 1));
    assert PewFrom(Above1, Below1, 5, 3, 0) == Some((after, 1));
    assert PewFrom(Above1, Below1, 5, 1, 0) == Some((after, 1));
  }

  lemma Pew2Row()
    ensures PewRow(Above2, Below1, 5) == Some(([Splitter, Beam, Beam, Splitter, Beam], 1))
  {
    var mid := [Splitter, Beam, Air, Splitter, Air];
    var after := [Splitter, Beam, Beam, Splitter, Beam];
    assert PewFrom(Above2, after, 5, 4, 1) == Some((after, 1));
    assert mid[2 := Beam][4 := Beam] == after;
    assert PewCell(Above2, mid, 3) == Some((after, 1));
    assert PewFrom(Above2, mid, 5, 3, 0) == Some((after, 1));
    assert PewFrom(Above2, mid, 5, 2, 0) == Some((after, 1));
    assert Below1[1 := Beam] == mid;
    assert PewCell(Above2, Below1, 1) == Some((mid, 0));
    assert PewFrom(Above2, Below1, 5, 1, 0) == Some((after, 1));
  }

  /** part1.rs:121-144: the beam over column 3 hits the splitter there. */
  method Pew1Example() {
    Pew1Row();
    var airspace := new AirSpace([Above1, Below1], 0, 5, 2);
    var visited := airspace.Pew(1);
    assert visited == Some(1);
    assert airspace.grid == [Above1, [Splitter, Air, Beam, Splitter, Beam]];
  }

  /** part1.rs:146-169: a second beam falls through air next to the hit splitter. */
  method Pew2Example() {
    Pew2Row();
    var airspace := new AirSpace([Above2, Below1], 0, 5, 2);
    var visited := airspace.Pew(1);
    assert visited == Some(1);
    assert airspace.grid == [Above2, [Splitter, Beam, Beam, Splitter, Beam]];
  }

  /**
   * `insert_beam` overwrites splitters: of two side-by-side splitters under
   * beams, the first turns the second into beam before it is reached, so
   * only one is counted although two are under a beam.
   */
  lemma SplitterOverwritten()
    ensures PewRow([Beam, Beam, Beam, Beam], [Air, Splitter, Splitter, Air], 4) == Some(([Beam, Splitter, Beam, Beam], 1))
    ensures HitsIn([Beam, Beam, Beam, Beam], [Air, Splitter, Splitter, Air], 0, 4) == 2
  {
    var above, row := [Beam, Beam, Beam, Beam], [Air, Splitter, Splitter, Air];
    var after := [Beam, Splitter, Beam, Beam];
    var r0, r1 := [Beam, Splitter, Splitter, Air], [Beam, Splitter, Beam, Air];
    assert PewFrom(above, after, 4, 4, 1) == Some((after, 1));
    assert r1[3 := Beam] == after;
    assert PewFrom(above, r1, 4, 3, 1) == Some((after, 1));
    assert PewFrom(above, r1, 4, 2, 1) == Some((after, 1));
    assert r0[0 := Beam][2 := Beam] == r1;
    assert PewCell(above, r0, 1) == Some((r1, 1));
    assert PewFrom(above, r0, 4, 1, 0) == Some((after, 1));
    assert row[0 := Beam] == r0;
    assert PewCell(above, row, 0) == Some((r0, 0));
    assert HitsIn(above, row, 2, 4) == 1;
  }

  /** A hit splitter in the first column is the `j - 1` underflow. */
  lemma EdgeSplitterPanics()
    ensures PewRow([Beam, Air], [Splitter, Air], 2) == None
    ensures PewRow([Air, Beam], [Air, Splitter], 2) == None
  {
  }

  /** `From<String>` on a text whose lines are all cells reads their cells and the last `S`. */
  lemma ParseLines(s: string, lines: seq<string>)
    requires Lines(s) == lines && lines != [] && FirstBadChar(lines).None?
    ensures Parse(s) == Ok(Layout(Cells(lines), OrZero(LastStart(lines)), |lines[0]|, |lines|))
  {
  }

  lemma RowCells(line: string, row: Row)
    requires |line| == |row|
    requires forall k :: 0 <= k < |line| ==> IsCell(line[k]) && CellOf(line[k]) == row[k]
    ensures seq(|line|, k requires 0 <= k < |line| => CellOf(line[k])) == row
  {
    var cells := seq(|line|, k requires 0 <= k < |line| => CellOf(line[k]));
    assert forall k :: 0 <= k < |line| ==> cells[k] == row[k];
  }

  const TinyLines: seq<string> := [".S.", "..."]
  const TinyGrid: seq<Row> := [[Air, Beam, Air], [Air, Air, Air]]

  lemma TinyParse(s: string)
    requires s == Terminated(TinyLines)
    ensures Parse(s) == Ok(Layout(TinyGrid, 1, 3, 2))
  {
    var lines := TinyLines;
    LinesOfTerminated(lines);
    assert LastStart(lines) == Some(1) by {
      assert lines[..1] == [".S."];
    }
    RowCells(lines[0], TinyGrid[0]);
    RowCells(lines[1], TinyGrid[1]);
    assert Cells(lines) == TinyGrid;
    assert FirstBadChar(lines).None?;
    ParseLines(s, lines);
  }

  /** part1.rs:171-187: `S` becomes the beam and gives the start column; the text is the two lines, each ended by a newline. */
  method TinyAirspaceExample() {
    TinyParse(Terminated(TinyLines));
    var layout := From(Terminated(TinyLines));
    assert layout == Ok(Layout(TinyGrid, 1, 3, 2));
  }

  const BiggerLines: seq<string> := ["..S..", ".....", "..^..", ".....", ".^.^.", "....."]
  const BiggerGrid: seq<Row> := [
    [Air, Air, Beam, Air, Air],
    [Air, Air, Air, Air, Air],
    [Air, Air, Splitter, Air, Air],
    [Air, Air, Air, Air, Air],
    [Air, Splitter, Air, Splitter, Air],
    [Air, Air, Air, Air, Air]]

  lemma BiggerStart(lines: seq<string>)
    requires lines == BiggerLines
    ensures LastStart(lines) == Some(2)
  {
    assert LastStartIn("..S..") == Some(2);
    assert LastStart(lines[..1]) == Some(2);
    forall n | 1 <= n < 6
      ensures LastStartIn(lines[n]) == None && lines[..n + 1][..n] == lines[..n]
    {
      assert 'S' !in lines[n];
    }
    assert LastStart(lines[..2]) == Some(2);
    assert LastStart(lines[..3]) == Some(2);
    assert LastStart(lines[..4]) == Some(2);
    assert LastStart(lines[..5]) == Some(2);
    assert lines[..6] == lines;
  }

  lemma BiggerCells(lines: seq<string>)
    requires lines == BiggerLines
    ensures FirstBadChar(lines).None?
    ensures Cells(lines) == BiggerGrid
  {
    var g := Cells(lines);
    forall i | 0 <= i < 6
      ensures g[i] == BiggerGrid[i] && forall k :: 0 <= k < |lines[i]| ==> IsCell(lines[i][k])
    {
      RowCells(lines[i], BiggerGrid[i]);
    }
    assert forall i, k :: 0 <= i < |lines| && 0 <= k < |lines[i]| ==> IsCell(lines[i][k]);
  }

  lemma BiggerParse(s: string)
    requires s == Terminated(BiggerLines)
    ensures Parse(s) == Ok(Layout(BiggerGrid, 2, 5, 6))
  {
    LinesOfTerminated(BiggerLines);
    BiggerStart(BiggerLines);
    BiggerCells(BiggerLines);
    ParseLines(s, BiggerLines);
  }

  /** part1.rs:189-213: the six-line airspace, start column 2, five columns, six rows; the text is the six lines, each ended by a newline. */
  method BiggerAirspaceExample() {
    BiggerParse(Terminated(BiggerLines));
    var layout := From(Terminated(BiggerLines));
    assert layout == Ok(Layout(BiggerGrid, 2, 5, 6));
  }
}
