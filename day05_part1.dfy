/**
 * Day 5, part 1 (day-05/src/part1.rs): a `BTreeSet<Range>` that coalesces
 * ranges as they are inserted, and the membership count over it.
 *
 * The `BTreeSet` is modelled as its in-order sequence. `BTreeSet` orders by
 * the derived `Ord` (lexicographic on `(min, max)`), so a tree is any sequence
 * strictly increasing in that order; `OrdersAgreeApart` shows that on a
 * coalesced tree this is also the `partial_cmp` order.
 */
module Day05Part1 {
  import opened Wrappers
  import opened Day05Range

  /** Strictly before in the derived `Ord`. */
  predicate OrdLess(a: Range, b: Range) {
    a.min < b.min || (a.min == b.min && a.max < b.max)
  }

  /** The in-order contents of some `BTreeSet<Range>`. */
  predicate IsTree(t: seq<Range>) {
    forall i, j :: 0 <= i < j < |t| ==> OrdLess(t[i], t[j])
  }

  /** What `to_b_tree_set` maintains: well-formed stored ranges, no two of them touching. */
  predicate IsCoalesced(t: seq<Range>) {
    IsTree(t)
    && (forall r :: r in t ==> WellFormed(r))
    && (forall a, b :: a in t && b in t && a != b ==> !Touches(a, b))
  }

  /** The integers covered by some range of `t`. */
  ghost function Cover(t: seq<Range>): set<int> {
    if t == [] then {} else Cover(t[..|t| - 1]) + Span(t[|t| - 1])
  }

  /** Every raw pair has `min <= max`, as the callers supply them. */
  predicate AllWellFormed(ranges: seq<(int, int)>) {
    forall i :: 0 <= i < |ranges| ==> ranges[i].0 <= ranges[i].1
  }

  /** The integers covered by the raw pairs. */
  ghost function PairsCover(ranges: seq<(int, int)>): set<int> {
    if ranges == [] then {}
    else PairsCover(ranges[..|ranges| - 1]) + Span(Range(ranges[|ranges| - 1].0, ranges[|ranges| - 1].1))
  }

  // ---------------------------------------------------------------------------
  // The two `BTreeSet` operations the source uses.

  /** `BTreeSet::insert`: `x` goes to its place in the order; an equal element already there stays. */
  function TreeInsert(t: seq<Range>, x: Range): (u: seq<Range>)
    requires IsTree(t)
    ensures IsTree(u)
    ensures forall y :: y in u <==> y in t || y == x
  {
    if t == [] then [x]
    else if OrdLess(x, t[0]) then [x] + t
    else if x == t[0] then t
    else
      var rest := TreeInsert(t[1..], x);
      assert forall y :: y in rest ==> OrdLess(t[0], y);
      [t[0]] + rest
  }

  /** `BTreeSet::remove`: the element equal to `x`, if any, leaves the tree. */
  function TreeRemove(t: seq<Range>, x: Range): (u: seq<Range>)
    requires IsTree(t)
    ensures IsTree(u)
    ensures forall y :: y in u <==> y in t && y != x
  {
    if t == [] then []
    else if t[0] == x then
      assert forall y :: y in t[1..] ==> OrdLess(t[0], y);
      t[1..]
    else
      var rest := TreeRemove(t[1..], x);
      assert forall y :: y in rest ==> OrdLess(t[0], y);
      [t[0]] + rest
  }

  /** A `BTreeSet` is a set: its in-order contents are fixed by which elements it holds. */
  lemma {:induction false} TreeIsItsElements(t1: seq<Range>, t2: seq<Range>)
    requires IsTree(t1) && IsTree(t2)
    requires forall y :: y in t1 <==> y in t2
    ensures t1 == t2
    decreases |t1|
  {
    if t1 != [] && t2 != [] {
      assert t1[0] in t2 && t2[0] in t1;
      assert t1[0] == t2[0];
      forall y
        ensures y in t1[1..] <==> y in t2[1..]
      {
        if y in t1[1..] {
          assert y in t2;
        }
        if y in t2[1..] {
          assert y in t1;
        }
      }
      TreeIsItsElements(t1[1..], t2[1..]);
      assert t1 == [t1[0]] + t1[1..] && t2 == [t2[0]] + t2[1..];
    } else {
      EmptyHasNoElements(t1);
      EmptyHasNoElements(t2);
    }
  }

  lemma EmptyHasNoElements(t: seq<Range>)
    ensures t == [] <==> forall y :: y !in t
  {
    if t != [] {
      assert t[0] in t;
    }
  }

  // ---------------------------------------------------------------------------
  // Facts about coalesced trees.

  /** In a coalesced tree a range ends at least two below where any later range starts. */
  lemma Separated(t: seq<Range>, i: int, j: int)
    requires IsCoalesced(t) && 0 <= i < j < |t|
    ensures t[i].max + 1 < t[j].min
  {
    assert t[i] in t && t[j] in t && t[i] != t[j];
  }

  /** The tree order of a coalesced tree is also increasing under `partial_cmp`. */
  lemma CoalescedSortedByPartialCmp(t: seq<Range>, i: int, j: int)
    requires IsCoalesced(t) && 0 <= i < j < |t|
    ensures PartialCmp(t[i], t[j]) == Less && OrdCmp(t[i], t[j]) == Less
  {
    Separated(t, i, j);
    assert OrdLess(t[i], t[j]) && t[j] in t;
  }

  lemma {:induction false} InCover(t: seq<Range>, x: int)
    ensures x in Cover(t) <==> exists r :: r in t && Contains(r, x)
  {
    if t != [] {
      var p := t[..|t| - 1];
      InCover(p, x);
      assert t == p + [t[|t| - 1]];
    }
  }

  lemma {:induction false} InPairsCover(ranges: seq<(int, int)>, x: int)
    ensures x in PairsCover(ranges) <==> exists p :: p in ranges && p.0 <= x <= p.1
  {
    if ranges != [] {
      var q := ranges[..|ranges| - 1];
      InPairsCover(q, x);
      assert ranges == q + [ranges[|ranges| - 1]];
    }
  }

  // ---------------------------------------------------------------------------
  // The ranges an insertion absorbs.

  /** The ranges of `t` that touch `c`, in tree order. */
  function Touching(t: seq<Range>, c: Range): (u: seq<Range>)
    ensures forall y :: y in u <==> y in t && Touches(y, c)
    ensures |u| <= |t|
  {
    if t == [] then []
    else
      var p := t[..|t| - 1];
      assert t == p + [t[|t| - 1]];
      Touching(p, c) + (if Touches(t[|t| - 1], c) then [t[|t| - 1]] else [])
  }

  lemma {:induction false} TouchingSame(s: seq<Range>, c: Range, d: Range)
    requires forall k :: 0 <= k < |s| ==> (Touches(s[k], c) <==> Touches(s[k], d))
    ensures Touching(s, c) == Touching(s, d)
  {
    if s != [] {
      TouchingSame(s[..|s| - 1], c, d);
    }
  }

  /**
   * Growing the candidate by a range it touches never makes an earlier range
   * of a coalesced tree touch it: this is why one pass in tree order suffices.
   */
  lemma GrowingKeepsEarlierApart(t: seq<Range>, i: int, c: Range)
    requires IsCoalesced(t) && 0 <= i < |t| && WellFormed(c) && Touches(c, t[i])
    ensures Touching(t[..i], Hull(c, t[i])) == Touching(t[..i], c)
  {
    forall k | 0 <= k < i
      ensures Touches(t[..i][k], c) <==> Touches(t[..i][k], Hull(c, t[i]))
    {
      Separated(t, k, i);
    }
    TouchingSame(t[..i], c, Hull(c, t[i]));
  }

  /**
   * `inspect_btree_for_insertion`: one scan in tree order that grows the
   * candidate `[min, max]` and records every stored range merged into it.
   * On a coalesced tree the result covers exactly the candidate and the
   * absorbed ranges, and the absorbed ranges are exactly the stored ranges
   * touching the result.
   */
  method InspectBTreeForInsertion(tree: seq<Range>, min: int, max: int) returns (range: Range, toRemove: seq<Range>)
    ensures forall r :: r in toRemove ==> r in tree
    ensures |toRemove| <= |tree|
    ensures toRemove == [] ==> range == Range(min, max)
    ensures range.min <= min && max <= range.max
    ensures IsCoalesced(tree) && min <= max ==>
      WellFormed(range)
      && Span(range) == Span(Range(min, max)) + Cover(toRemove)
      && toRemove == Touching(tree, range)
  {
    range := Range(min, max);
    toRemove := [];
    var i := 0;
    while i < |tree|
      invariant 0 <= i <= |tree|
      invariant forall r :: r in toRemove ==> r in tree[..i]
      invariant |toRemove| <= i
      invariant toRemove == [] ==> range == Range(min, max)
      invariant range.min <= min && max <= range.max
      invariant IsCoalesced(tree) && min <= max ==>
        WellFormed(range)
        && Span(range) == Span(Range(min, max)) + Cover(toRemove)
        && toRemove == Touching(tree[..i], range)
    {
      assert tree[..i + 1] == tree[..i] + [tree[i]];
      if IsCoalesced(tree) && min <= max {
        ScanStep(tree, i, min, max, range, toRemove);
      }
      var merged := Merge(range, tree[i]);
      if merged.Some? {
        toRemove := toRemove + [tree[i]];
        range := merged.value;
      }
      i := i + 1;
    }
    assert tree[..i] == tree;
  }

  /** One pass of the scan keeps what it promises about the candidate and the absorbed ranges. */
  lemma ScanStep(tree: seq<Range>, i: int, min: int, max: int, range: Range, toRemove: seq<Range>)
    requires IsCoalesced(tree) && min <= max && 0 <= i < |tree|
    requires WellFormed(range) && Span(range) == Span(Range(min, max)) + Cover(toRemove)
    requires toRemove == Touching(tree[..i], range)
    ensures Merge(range, tree[i]).Some? ==>
      var grown := Merge(range, tree[i]).value;
      WellFormed(grown) && Span(grown) == Span(Range(min, max)) + Cover(toRemove + [tree[i]])
      && toRemove + [tree[i]] == Touching(tree[..i + 1], grown)
    ensures Merge(range, tree[i]).None? ==> toRemove == Touching(tree[..i + 1], range)
  {
    assert tree[i] in tree;
    if Merge(range, tree[i]).Some? {
      ScanStepGrows(tree, i, range, toRemove);
    } else {
      ScanStepSkips(tree, i, range);
    }
  }

  /** A stored range the candidate touches is absorbed, and no earlier one joins it. */
  lemma ScanStepGrows(tree: seq<Range>, i: int, range: Range, toRemove: seq<Range>)
    requires IsCoalesced(tree) && 0 <= i < |tree| && WellFormed(range) && Touches(range, tree[i])
    requires toRemove == Touching(tree[..i], range)
    ensures WellFormed(Hull(range, tree[i]))
    ensures Span(Hull(range, tree[i])) == Span(range) + Span(tree[i])
    ensures Cover(toRemove + [tree[i]]) == Cover(toRemove) + Span(tree[i])
    ensures toRemove + [tree[i]] == Touching(tree[..i + 1], Hull(range, tree[i]))
  {
    var t, grown := tree[i], Hull(range, tree[i]);
    assert t in tree;
    MergeUnion(range, t);
    GrowingKeepsEarlierApart(tree, i, range);
    assert (toRemove + [t])[..|toRemove|] == toRemove;
    var prefix := tree[..i + 1];
    assert prefix[..|prefix| - 1] == tree[..i] && prefix[|prefix| - 1] == t;
    assert Touches(t, grown);
  }

  /** A stored range the candidate does not touch is passed over. */
  lemma ScanStepSkips(tree: seq<Range>, i: int, range: Range)
    requires 0 <= i < |tree| && !Touches(tree[i], range)
    ensures Touching(tree[..i + 1], range) == Touching(tree[..i], range)
  {
    var prefix := tree[..i + 1];
    assert prefix[..|prefix| - 1] == tree[..i] && prefix[|prefix| - 1] == tree[i];
  }

  /** One insertion step of `to_b_tree_set` keeps the tree coalesced and adds exactly the new pair's integers. */
  lemma InsertionStep(before: seq<Range>, after: seq<Range>, c: Range, range: Range, removed: seq<Range>)
    requires IsCoalesced(before) && WellFormed(c) && WellFormed(range)
    requires Span(range) == Span(c) + Cover(removed)
    requires removed == Touching(before, range)
    requires IsTree(after)
    requires forall y :: y in after <==> (y in before && y !in removed) || y == range
    ensures IsCoalesced(after)
    ensures Cover(after) == Cover(before) + Span(c)
  {
    InsertionKeepsCoalesced(before, after, range, removed);
    InsertionCover(before, after, c, range, removed);
  }

  lemma InsertionKeepsCoalesced(before: seq<Range>, after: seq<Range>, range: Range, removed: seq<Range>)
    requires IsCoalesced(before) && WellFormed(range)
    requires removed == Touching(before, range)
    requires IsTree(after)
    requires forall y :: y in after <==> (y in before && y !in removed) || y == range
    ensures IsCoalesced(after)
  {
    forall a, b | a in after && b in after && a != b
      ensures !Touches(a, b)
    {
      InsertionStepApart(before, after, range, removed, a, b);
    }
  }

  lemma InsertionCover(before: seq<Range>, after: seq<Range>, c: Range, range: Range, removed: seq<Range>)
    requires Span(range) == Span(c) + Cover(removed)
    requires removed == Touching(before, range)
    requires forall y :: y in after <==> (y in before && y !in removed) || y == range
    ensures Cover(after) == Cover(before) + Span(c)
  {
    forall x
      ensures x in Cover(after) <==> x in Cover(before) + Span(c)
    {
      InsertionStepAt(before, after, c, range, removed, x);
    }
  }

  lemma InsertionStepApart(before: seq<Range>, after: seq<Range>, range: Range, removed: seq<Range>, a: Range, b: Range)
    requires IsCoalesced(before)
    requires removed == Touching(before, range)
    requires forall y :: y in after <==> (y in before && y !in removed) || y == range
    requires a in after && b in after && a != b
    ensures !Touches(a, b)
  {
    if a == range {
      assert b in before && b !in removed;
    } else if b == range {
      assert a in before && a !in removed;
    } else {
      assert a in before && b in before;
    }
  }

  lemma InsertionStepAt(before: seq<Range>, after: seq<Range>, c: Range, range: Range, removed: seq<Range>, x: int)
    requires Span(range) == Span(c) + Cover(removed)
    requires forall y :: y in removed ==> y in before
    requires forall y :: y in after <==> (y in before && y !in removed) || y == range
    ensures x in Cover(after) <==> x in Cover(before) + Span(c)
  {
    InCover(after, x);
    InCover(before, x);
    InCover(removed, x);
    if x in Cover(after) {
      var r :| r in after && Contains(r, x);
      if r == range {
        assert x in Span(range);
        if x !in Span(c) {
          var s :| s in removed && Contains(s, x);
          assert s in before;
        }
      } else {
        assert r in before;
      }
    }
    if x in Cover(before) + Span(c) {
      if x in Span(c) {
        assert x in Span(range);
        assert range in after && Contains(range, x);
      } else {
        var r :| r in before && Contains(r, x);
        if r in removed {
          assert x in Cover(removed);
          assert x in Span(range);
          assert range in after && Contains(range, x);
        } else {
          assert r in after;
        }
      }
    }
  }

  /** Taking one more raw pair: the prefix before it is well-formed too, and the cover grows by the pair. */
  lemma PrefixStep(ranges: seq<(int, int)>, k: int)
    requires 0 <= k < |ranges| && AllWellFormed(ranges[..k + 1])
    ensures AllWellFormed(ranges[..k]) && ranges[k].0 <= ranges[k].1
    ensures PairsCover(ranges[..k + 1]) == PairsCover(ranges[..k]) + Span(Range(ranges[k].0, ranges[k].1))
  {
    var pre := ranges[..k + 1];
    assert pre[..k] == ranges[..k] && pre[k] == ranges[k];
    forall j | 0 <= j < k
      ensures ranges[..k][j].0 <= ranges[..k][j].1
    {
      assert ranges[..k][j] == pre[j];
    }
  }

  /** The removal loop of `to_b_tree_set`: every marked range leaves the tree, one at a time. */
  method RemoveMarked(tree: seq<Range>, marked: seq<Range>) returns (t: seq<Range>)
    requires IsTree(tree)
    ensures IsTree(t)
    ensures forall y :: y in t <==> y in tree && y !in marked
  {
    t := tree;
    var idx := 0;
    while idx < |marked|
      invariant 0 <= idx <= |marked|
      invariant IsTree(t)
      invariant forall y :: y in t <==> y in tree && y !in marked[..idx]
    {
      assert marked[..idx + 1] == marked[..idx] + [marked[idx]];
      t := TreeRemove(t, marked[idx]);
      idx := idx + 1;
    }
    assert marked[..idx] == marked;
  }

  /**
   * `to_b_tree_set`: inserts the raw pairs one at a time; each insertion
   * removes the ranges `inspect_btree_for_insertion` absorbed and inserts the
   * grown range. For well-formed pairs the tree stays coalesced and covers
   * exactly the integers of the pairs inserted so far.
   */
  method ToBTreeSet(ranges: seq<(int, int)>) returns (tree: seq<Range>)
    ensures IsTree(tree)
    ensures AllWellFormed(ranges) ==> IsCoalesced(tree) && Cover(tree) == PairsCover(ranges)
  {
    tree := [];
    var k := 0;
    while k < |ranges|
      invariant 0 <= k <= |ranges|
      invariant IsTree(tree)
      invariant AllWellFormed(ranges[..k]) ==> IsCoalesced(tree) && Cover(tree) == PairsCover(ranges[..k])
    {
      var (lo, hi) := ranges[k];
      tree := InsertPair(tree, lo, hi);
      if AllWellFormed(ranges[..k + 1]) {
        PrefixStep(ranges, k);
      }
      k := k + 1;
    }
    assert ranges[..k] == ranges;
  }

  /**
   * One pass of the loop of `to_b_tree_set`: the absorbed ranges leave the
   * tree and the grown range goes in. A coalesced tree stays coalesced and
   * gains exactly the integers of the pair.
   */
  method InsertPair(tree: seq<Range>, lo: int, hi: int) returns (t: seq<Range>)
    requires IsTree(tree)
    ensures IsTree(t)
    ensures IsCoalesced(tree) && lo <= hi ==> IsCoalesced(t) && Cover(t) == Cover(tree) + Span(Range(lo, hi))
  {
    var rangeToAdd, rangesToRemove := InspectBTreeForInsertion(tree, lo, hi);
    t := RemoveMarked(tree, rangesToRemove);
    t := TreeInsert(t, rangeToAdd);
    if IsCoalesced(tree) && lo <= hi {
      InsertionStep(tree, t, Range(lo, hi), rangeToAdd, rangesToRemove);
    }
  }

  // ---------------------------------------------------------------------------
  // Membership queries.

  /** Some stored range holds `v`. */
  ghost predicate Covered(t: seq<Range>, v: int) {
    exists r :: r in t && Contains(r, v)
  }

  /** How many of the query values (counted with repetition) some stored range holds: the exhaustive scan. */
  ghost function CountCovered(t: seq<Range>, vals: seq<int>): nat {
    if vals == [] then 0
    else CountCovered(t, vals[..|vals| - 1]) + (if Covered(t, vals[|vals| - 1]) then 1 else 0)
  }

  /** How many of the query values (counted with repetition) lie in `s`. */
  ghost function CountIn(vals: seq<int>, s: set<int>): nat {
    if vals == [] then 0
    else CountIn(vals[..|vals| - 1], s) + (if vals[|vals| - 1] in s then 1 else 0)
  }

  lemma {:induction false} CountCoveredIsCountInCover(t: seq<Range>, vals: seq<int>)
    ensures CountCovered(t, vals) == CountIn(vals, Cover(t))
  {
    if vals != [] {
      CountCoveredIsCountInCover(t, vals[..|vals| - 1]);
      InCover(t, vals[|vals| - 1]);
    }
  }

  /**
   * `search_b_tree_set`: per query value, scan the tree in order and stop at
   * the first range holding it, or as soon as a range starts above it. On any
   * tree (sorted by `Ord`) the early stop does not change the count: the
   * result is the exhaustive count.
   */
  method SearchBTreeSet(tree: seq<Range>, vals: seq<int>) returns (count: int)
    requires IsTree(tree)
    ensures count == CountCovered(tree, vals)
  {
    count := 0;
    var n := 0;
    while n < |vals|
      invariant 0 <= n <= |vals|
      invariant count == CountCovered(tree, vals[..n])
    {
      var val := vals[n];
      ghost var before := count;
      var lastMax := 0;
      var j := 0;
      while j < |tree|
        invariant 0 <= j <= |tree|
        invariant count == before
        invariant forall k :: 0 <= k < j ==> !Contains(tree[k], val)
      {
        var range := tree[j];
        if val >= range.min && val <= range.max {
          assert Contains(range, val) && range in tree;
          count := count + 1;
          break;
        }
        if val > lastMax && val < range.min {
          assert forall k :: j <= k < |tree| ==> !Contains(tree[k], val) by {
            forall k | j < k < |tree| ensures val < tree[k].min {
              assert OrdLess(tree[j], tree[k]);
            }
          }
          break;
        }
        lastMax := range.max;
        j := j + 1;
      }
      assert (count == before + 1 && Covered(tree, val))
          || (count == before && forall k :: 0 <= k < |tree| ==> !Contains(tree[k], val));
      assert vals[..n + 1][..n] == vals[..n];
      n := n + 1;
    }
    assert vals[..n] == vals;
  }

  /**
   * `process_b_tree_set` without the file: builds the tree from the pairs and
   * counts the query values some pair covers.
   */
  method ProcessBTreeSet(ranges: seq<(int, int)>, values: seq<int>) returns (count: int)
    ensures AllWellFormed(ranges) ==> count == CountIn(values, PairsCover(ranges))
  {
    var tree := ToBTreeSet(ranges);
    count := SearchBTreeSet(tree, values);
    CountCoveredIsCountInCover(tree, values);
  }
}
