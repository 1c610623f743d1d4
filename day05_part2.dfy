/**
 * Day 5, part 2 (day-05/src/part2.rs): the number of distinct integers the
 * inserted pairs cover, read off the coalesced tree of part 1.
 */
module Day05Part2 {
  import opened Day05Range
  import opened Day05Part1

  /** Sum over the stored ranges of `max - min + 1`. */
  function TotalLength(t: seq<Range>): int {
    if t == [] then 0 else TotalLength(t[..|t| - 1]) + (t[|t| - 1].max - t[|t| - 1].min + 1)
  }

  /** Every well-formed range contributes at least one. */
  lemma {:induction false} TotalLengthAtLeastCount(t: seq<Range>)
    requires forall r :: r in t ==> WellFormed(r)
    ensures TotalLength(t) >= |t|
  {
    if t != [] {
      var p := t[..|t| - 1];
      assert forall r :: r in p ==> r in t;
      assert t[|t| - 1] in t;
      TotalLengthAtLeastCount(p);
    }
  }

  /** `count_all_fresh_ids`: adds `max - min + 1` for every stored range, in tree order. */
  method CountAllFreshIds(tree: seq<Range>) returns (count: int)
    ensures count == TotalLength(tree)
    ensures (forall r :: r in tree ==> WellFormed(r)) ==> count >= |tree|
  {
    count := 0;
    var i := 0;
    while i < |tree|
      invariant 0 <= i <= |tree|
      invariant count == TotalLength(tree[..i])
    {
      var range := tree[i];
      assert tree[..i + 1][..i] == tree[..i];
      count := count + (range.max - range.min + 1);
      i := i + 1;
    }
    assert tree[..i] == tree;
    if forall r :: r in tree ==> WellFormed(r) {
      TotalLengthAtLeastCount(tree);
    }
  }

  // ---------------------------------------------------------------------------
  // The count is the size of the covered set.

  lemma {:induction false} SpanSize(r: Range)
    requires WellFormed(r)
    ensures |Span(r)| == r.max - r.min + 1
    decreases r.max - r.min
  {
    if r.min == r.max {
      assert Span(r) == {r.min};
    } else {
      var s := Range(r.min, r.max - 1);
      SpanSize(s);
      assert Span(r) == Span(s) + {r.max};
    }
  }

  lemma PrefixCoalesced(t: seq<Range>, n: int)
    requires IsCoalesced(t) && 0 <= n <= |t|
    ensures IsCoalesced(t[..n])
  {
    assert forall r :: r in t[..n] ==> r in t;
  }

  lemma SuffixCoalesced(t: seq<Range>, n: int)
    requires IsCoalesced(t) && 0 <= n <= |t|
    ensures IsCoalesced(t[n..])
  {
    assert forall r :: r in t[n..] ==> r in t;
  }

  /** No double counting: on a coalesced tree the sum of lengths is the number of covered integers. */
  lemma {:induction false} TotalLengthIsCoverSize(t: seq<Range>)
    requires IsCoalesced(t)
    ensures TotalLength(t) == |Cover(t)|
  {
    if t != [] {
      var n := |t| - 1;
      var p := t[..n];
      var last := t[n];
      PrefixCoalesced(t, n);
      TotalLengthIsCoverSize(p);
      assert last in t;
      SpanSize(last);
      forall x | x in Cover(p) && x in Span(last)
        ensures false
      {
        InCover(p, x);
        var r :| r in p && Contains(r, x);
        var i :| 0 <= i < |p| && p[i] == r;
        Separated(t, i, n);
      }
      assert Cover(p) * Span(last) == {};
    }
  }

  // ---------------------------------------------------------------------------
  // A coalesced tree is determined by the integers it covers.

  /** The first range of a coalesced tree starts at the least covered integer and is followed by a gap. */
  lemma FirstRange(t: seq<Range>)
    requires IsCoalesced(t) && |t| > 0
    ensures forall x :: x in Cover(t) ==> t[0].min <= x
    ensures t[0].min in Cover(t)
    ensures t[0].max + 1 !in Cover(t)
    ensures Cover(t[1..]) == Cover(t) - Span(t[0])
  {
    assert t[0] in t;
    forall x | x in Cover(t)
      ensures t[0].min <= x && x != t[0].max + 1 && (x !in Span(t[0]) ==> x in Cover(t[1..]))
    {
      InCover(t, x);
      InCover(t[1..], x);
      var r :| r in t && Contains(r, x);
      var i :| 0 <= i < |t| && t[i] == r;
      if i > 0 {
        Separated(t, 0, i);
        assert r in t[1..];
      }
    }
    forall x | x in Cover(t[1..])
      ensures x in Cover(t) && x !in Span(t[0])
    {
      InCover(t, x);
      InCover(t[1..], x);
      var r :| r in t[1..] && Contains(r, x);
      var i :| 1 <= i < |t| && t[i] == r;
      Separated(t, 0, i);
    }
    InCover(t, t[0].min);
  }

  /** Two coalesced trees covering the same integers are the same tree. */
  lemma {:induction false} CoalescedIsCanonical(t1: seq<Range>, t2: seq<Range>)
    requires IsCoalesced(t1) && IsCoalesced(t2) && Cover(t1) == Cover(t2)
    ensures t1 == t2
    decreases |t1|
  {
    if t1 == [] || t2 == [] {
      if t1 != [] {
        FirstRange(t1);
      }
      if t2 != [] {
        FirstRange(t2);
      }
    } else {
      var a, b := t1[0], t2[0];
      FirstRange(t1);
      FirstRange(t2);
      assert a in t1 && b in t2;
      assert a.min == b.min;
      InCover(t2, a.max + 1);
      InCover(t1, b.max + 1);
      assert a == b;
      SuffixCoalesced(t1, 1);
      SuffixCoalesced(t2, 1);
      CoalescedIsCanonical(t1[1..], t2[1..]);
      assert t1 == [a] + t1[1..] && t2 == [b] + t2[1..];
    }
  }

  /** The integers covered do not depend on the order of the pairs. */
  lemma PairsCoverOrderFree(a: seq<(int, int)>, b: seq<(int, int)>)
    requires multiset(a) == multiset(b)
    ensures PairsCover(a) == PairsCover(b)
  {
    forall x
      ensures x in PairsCover(a) <==> x in PairsCover(b)
    {
      InPairsCover(a, x);
      InPairsCover(b, x);
      forall p
        ensures p in a <==> p in b
      {
        assert p in a <==> p in multiset(a);
        assert p in b <==> p in multiset(b);
      }
    }
  }

  /**
   * Order independence: any two trees that `to_b_tree_set` can build from
   * rearrangements of the same well-formed pairs are identical, so they give
   * the same total and the same membership answers.
   */
  lemma SameTreeForAnyOrder(a: seq<(int, int)>, b: seq<(int, int)>, t1: seq<Range>, t2: seq<Range>)
    requires multiset(a) == multiset(b)
    requires IsCoalesced(t1) && Cover(t1) == PairsCover(a)
    requires IsCoalesced(t2) && Cover(t2) == PairsCover(b)
    ensures t1 == t2
    ensures TotalLength(t1) == TotalLength(t2) == |PairsCover(a)|
  {
    PairsCoverOrderFree(a, b);
    CoalescedIsCanonical(t1, t2);
    TotalLengthIsCoverSize(t1);
  }

  /** Idempotent coalescing: inserting the last pair a second time builds the same tree. */
  lemma InsertingTwiceIsOnce(a: seq<(int, int)>, p: (int, int), t1: seq<Range>, t2: seq<Range>)
    requires IsCoalesced(t1) && Cover(t1) == PairsCover(a + [p])
    requires IsCoalesced(t2) && Cover(t2) == PairsCover(a + [p, p])
    ensures t1 == t2
  {
    assert (a + [p, p])[..|a| + 1] == a + [p];
    assert (a + [p])[..|a|] == a;
    CoalescedIsCanonical(t1, t2);
  }

  /**
   * `process_b_tree_set` of part 2 without the file: for well-formed pairs the
   * result is the number of distinct integers they cover.
   */
  method ProcessBTreeSet(ranges: seq<(int, int)>) returns (count: int)
    ensures AllWellFormed(ranges) ==> count == |PairsCover(ranges)|
  {
    var tree := ToBTreeSet(ranges);
    count := CountAllFreshIds(tree);
    if AllWellFormed(ranges) {
      TotalLengthIsCoverSize(tree);
    }
  }
}
