/** The day-5 test scenarios of the source, checked against the model's contracts. */
module Day05Examples {
  import opened Day05Range
  import opened Day05Part1
  import opened Day05Part2

  const FreshInput: seq<(int, int)> := [(20, 30), (6, 10), (12, 15), (3, 5), (14, 15)]
  const FreshTree: seq<Range> := [Range(3, 10), Range(12, 15), Range(20, 30)]

  lemma FreshTreeCoversInput()
    ensures AllWellFormed(FreshInput) && IsCoalesced(FreshTree)
    ensures Cover(FreshTree) == PairsCover(FreshInput)
  {
    forall x ensures x in Cover(FreshTree) <==> x in PairsCover(FreshInput) {
      InCover(FreshTree, x);
      InPairsCover(FreshInput, x);
      if x in PairsCover(FreshInput) {
        var p :| p in FreshInput && p.0 <= x <= p.1;
        if 3 <= x <= 10 {
          assert FreshTree[0] in FreshTree && Contains(FreshTree[0], x);
        } else if 12 <= x <= 15 {
          assert FreshTree[1] in FreshTree && Contains(FreshTree[1], x);
        } else {
          assert FreshTree[2] in FreshTree && Contains(FreshTree[2], x);
        }
      }
      if x in Cover(FreshTree) {
        var r :| r in FreshTree && Contains(r, x);
        if 3 <= x <= 5 {
          assert (3, 5) in FreshInput;
        } else if 6 <= x <= 10 {
          assert (6, 10) in FreshInput;
        } else if 12 <= x <= 15 {
          assert (12, 15) in FreshInput;
        } else {
          assert (20, 30) in FreshInput;
        }
      }
    }
  }

  lemma FreshTreeTotal()
    ensures TotalLength(FreshTree) == 23
  {
    assert FreshTree[..2] == [Range(3, 10), Range(12, 15)];
    assert [Range(3, 10), Range(12, 15)][..1] == [Range(3, 10)];
    assert [Range(3, 10)][..0] == [];
  }

  /** part2.rs:91-115: the five pairs coalesce into exactly three ranges covering 23 integers. */
  method CountAllFreshIdsExample() {
    var tree := ToBTreeSet(FreshInput);
    FreshTreeCoversInput();
    CoalescedIsCanonical(tree, FreshTree);
    var count := CountAllFreshIds(tree);
    FreshTreeTotal();
    assert tree == FreshTree && count == 23;
  }

  const SampleInput: seq<(int, int)> := [(3, 5), (10, 14), (16, 20), (12, 18)]
  const SampleTree: seq<Range> := [Range(3, 5), Range(10, 20)]

  lemma SampleTreeCoversInput()
    ensures AllWellFormed(SampleInput) && IsCoalesced(SampleTree)
    ensures Cover(SampleTree) == PairsCover(SampleInput)
  {
    forall x ensures x in Cover(SampleTree) <==> x in PairsCover(SampleInput) {
      InCover(SampleTree, x);
      InPairsCover(SampleInput, x);
      if x in PairsCover(SampleInput) {
        var p :| p in SampleInput && p.0 <= x <= p.1;
        if x <= 5 {
          assert SampleTree[0] in SampleTree && Contains(SampleTree[0], x);
        } else {
          assert SampleTree[1] in SampleTree && Contains(SampleTree[1], x);
        }
      }
      if x in Cover(SampleTree) {
        var r :| r in SampleTree && Contains(r, x);
        if x <= 5 {
          assert (3, 5) in SampleInput;
        } else if x <= 14 {
          assert (10, 14) in SampleInput;
        } else {
          assert (16, 20) in SampleInput || (12, 18) in SampleInput;
        }
      }
    }
  }

  lemma SampleQueries(t: seq<Range>)
    requires t == SampleTree
    ensures CountCovered(t, [1, 5, 8, 11, 17, 32]) == 3
  {
    var vals := [1, 5, 8, 11, 17, 32];
    assert Contains(t[0], 5) && Contains(t[1], 11) && Contains(t[1], 17);
    assert !Covered(t, 1) && Covered(t, 5) && !Covered(t, 8) && Covered(t, 11) && Covered(t, 17) && !Covered(t, 32);
    assert vals[..5] == [1, 5, 8, 11, 17];
    assert vals[..5][..4] == [1, 5, 8, 11];
    assert vals[..5][..4][..3] == [1, 5, 8];
    assert [1, 5, 8][..2] == [1, 5];
    assert [1, 5][..1] == [1];
    assert [1][..0] == [];
    assert CountCovered(t, [1]) == 0;
    assert CountCovered(t, [1, 5]) == 1;
    assert CountCovered(t, [1, 5, 8]) == 1;
    assert CountCovered(t, [1, 5, 8, 11]) == 2;
    assert CountCovered(t, [1, 5, 8, 11, 17]) == 3;
  }

  /**
   * The sample of both parts (part1.rs:140-151, part2.rs:51-62): the four
   * pairs coalesce into `[3,5]` and `[10,20]`, which cover 14 integers and
   * hold 3 of the 6 query values.
   */
  method SampleScenario() {
    var tree := ToBTreeSet(SampleInput);
    SampleTreeCoversInput();
    CoalescedIsCanonical(tree, SampleTree);
    var total := CountAllFreshIds(tree);
    assert SampleTree[..1] == [Range(3, 5)] && [Range(3, 5)][..0] == [];
    assert total == 14;
    var hits := SearchBTreeSet(tree, [1, 5, 8, 11, 17, 32]);
    SampleQueries(tree);
    assert hits == 3;
  }

  const MultiTree: seq<Range> := [Range(0, 3), Range(5, 10), Range(15, 20), Range(30, 40)]

  /** What the contract of the insertion scan leaves possible on the tree of part1.rs:248-260. */
  lemma MultiAbsorbOutcome(range: Range, toRemove: seq<Range>)
    requires range.min <= 11 && 15 <= range.max && WellFormed(range)
    requires Span(range) == Span(Range(11, 15)) + Cover(toRemove)
    requires toRemove == Touching(MultiTree, range)
    ensures range == Range(5, 20)
    ensures toRemove == [Range(5, 10), Range(15, 20)]
  {
    var t := MultiTree;
    assert t[0] in t && t[1] in t && t[2] in t && t[3] in t;
    assert Range(5, 10) in toRemove && Range(15, 20) in toRemove;
    forall x | x in Span(range)
      ensures 0 <= x <= 3 || 5 <= x <= 20 || 30 <= x <= 40
    {
      InCover(toRemove, x);
    }
    assert range.min in Span(range) && range.max in Span(range);
    assert 4 !in Span(range) && 25 !in Span(range);
    assert range.min == 5 by {
      assert Contains(range, 4) ==> 4 in Span(range);
      InCover(toRemove, 5);
      assert Range(5, 10) in toRemove && Contains(Range(5, 10), 5);
    }
    assert range.max == 20 by {
      assert Contains(range, 25) ==> 25 in Span(range);
      InCover(toRemove, 20);
      assert Range(15, 20) in toRemove && Contains(Range(15, 20), 20);
    }
    MultiTouching(t);
  }

  lemma MultiTouching(t: seq<Range>)
    requires t == MultiTree
    ensures Touching(t, Range(5, 20)) == [Range(5, 10), Range(15, 20)]
  {
    var c := Range(5, 20);
    assert t[..3] == [Range(0, 3), Range(5, 10), Range(15, 20)];
    assert t[..3][..2] == [Range(0, 3), Range(5, 10)];
    assert t[..3][..2][..1] == [Range(0, 3)];
    assert [Range(0, 3)][..0] == [];
    assert Touching([Range(0, 3)], c) == [];
    assert Touching([Range(0, 3), Range(5, 10)], c) == [Range(5, 10)];
    assert Touching([Range(0, 3), Range(5, 10), Range(15, 20)], c) == [Range(5, 10), Range(15, 20)];
  }

  lemma MultiTreeBuilt(tree: seq<Range>)
    requires tree == TreeInsert(TreeInsert(TreeInsert(TreeInsert([], Range(30, 40)), Range(5, 10)), Range(0, 3)), Range(15, 20))
    ensures tree == MultiTree && IsCoalesced(tree)
  {
    MultiTreeIsTree(MultiTree);
    TreeIsItsElements(tree, MultiTree);
    MultiTreeCoalesced(MultiTree);
  }

  lemma MultiTreeIsTree(t: seq<Range>)
    requires t == MultiTree
    ensures IsTree(t) && forall y :: y in t <==> y in {Range(30, 40), Range(5, 10), Range(0, 3), Range(15, 20)}
  {
  }

  lemma MultiTreeCoalesced(t: seq<Range>)
    requires t == MultiTree
    ensures IsCoalesced(t)
  {
  }

  /** part1.rs:248-260: `[11,15]` joins `[5,10]` and `[15,20]`, absorbing both, in tree order. */
  method InspectMultipleExample() {
    var tree := TreeInsert(TreeInsert(TreeInsert(TreeInsert([], Range(30, 40)), Range(5, 10)), Range(0, 3)), Range(15, 20));
    MultiTreeBuilt(tree);
    var range, toRemove := InspectBTreeForInsertion(tree, 11, 15);
    MultiAbsorbOutcome(range, toRemove);
    assert range == Range(5, 20) && toRemove == [Range(5, 10), Range(15, 20)];
  }

  /** part1.rs:227-235: on an empty tree the candidate comes back unchanged and nothing is removed. */
  method InspectEmptyExample() {
    var range, toRemove := InspectBTreeForInsertion([], 0, 10);
    assert range == Range(0, 10) && toRemove == [];
  }

  const SearchTree: seq<Range> := [Range(3, 5), Range(6, 10), Range(12, 15), Range(14, 15), Range(20, 30)]

  lemma SearchQueries(t: seq<Range>)
    requires t == SearchTree
    ensures CountCovered(t, [3, 10, 11]) == 2
  {
    var vals := [3, 10, 11];
    assert Contains(t[0], 3) && Contains(t[1], 10);
    assert Covered(t, 3) && Covered(t, 10) && !Covered(t, 11);
    assert vals[..2] == [3, 10] && [3, 10][..1] == [3] && [3][..0] == [];
    assert CountCovered(t, [3]) == 1;
    assert CountCovered(t, [3, 10]) == 2;
  }

  /** part1.rs:180-200: the tree holds overlapping ranges here, and still 2 of the 3 values are found. */
  method SearchExample() {
    var tree := TreeInsert(TreeInsert(TreeInsert(TreeInsert(TreeInsert([], Range(20, 30)), Range(6, 10)), Range(12, 15)), Range(3, 5)), Range(14, 15));
    TreeIsItsElements(tree, SearchTree);
    var count := SearchBTreeSet(tree, [3, 10, 11]);
    SearchQueries(tree);
    assert count == 2;
  }
}
