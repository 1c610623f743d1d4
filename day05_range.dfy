/**
 * The closed integer interval `Range` of day 5 (day-05/src/part1.rs:6-34; the
 * public copy in day-05/src/lib.rs:6-34 is the same code line for line).
 * `isize` is taken as an unbounded integer.
 */
module Day05Range {
  import opened Wrappers

  datatype Range = Range(min: int, max: int)

  datatype Ordering = Less | Equal | Greater

  /** A range as the callers build it: `min <= max`. */
  predicate WellFormed(r: Range) {
    r.min <= r.max
  }

  /** `x` lies in the closed range. */
  predicate Contains(r: Range, x: int) {
    r.min <= x <= r.max
  }

  /** The integers the range covers. */
  ghost function Span(r: Range): set<int> {
    set x | r.min <= x <= r.max && Contains(r, x)
  }

  /** Overlapping or adjacent: no integer lies strictly between the two ranges. */
  predicate Touches(a: Range, b: Range) {
    a.min <= b.max + 1 && b.min <= a.max + 1
  }

  /** The smallest range holding both arguments. */
  function Hull(a: Range, b: Range): Range {
    Range(if a.min <= b.min then a.min else b.min, if a.max >= b.max then a.max else b.max)
  }

  function CmpInt(a: int, b: int): Ordering {
    if a < b then Less else if a == b then Equal else Greater
  }

  /** The hand-written `partial_cmp`: `max` first, `min` breaks ties. */
  function PartialCmp(a: Range, b: Range): Ordering {
    if a.max == b.max then CmpInt(a.min, b.min) else CmpInt(a.max, b.max)
  }

  /**
   * The derived `Ord` (`#[derive(Ord)]`): lexicographic on the fields in
   * declaration order, `min` then `max`. `BTreeSet` orders by this one.
   */
  function OrdCmp(a: Range, b: Range): Ordering {
    if a.min == b.min then CmpInt(a.max, b.max) else CmpInt(a.min, b.min)
  }

  /** `Range::merge`, with the source's four-way test written out unchanged. */
  function Merge(a: Range, b: Range): (r: Option<Range>)
    ensures WellFormed(a) && WellFormed(b) ==> (r.Some? <==> Touches(a, b))
    ensures r.Some? ==> r.value == Hull(a, b)
  {
    if ((a.max >= b.min - 1 && a.max <= b.max) || (a.min <= b.max + 1 && a.min >= b.min))
       || ((b.max >= a.min - 1 && b.max <= a.max) || (b.min <= a.max + 1 && b.min >= a.min))
    then Some(Range(if a.min <= b.min then a.min else b.min, if a.max >= b.max then a.max else b.max))
    else None
  }

  /** Merging is symmetric, for all ranges, well formed or not. */
  lemma MergeSymmetric(a: Range, b: Range)
    ensures Merge(a, b) == Merge(b, a)
  {
  }

  /** A range merges with itself into itself. */
  lemma MergeSelf(r: Range)
    requires WellFormed(r)
    ensures Merge(r, r) == Some(r)
  {
  }

  /** A successful merge covers exactly the integers of its two arguments: no more, no fewer. */
  lemma MergeUnion(a: Range, b: Range)
    requires WellFormed(a) && WellFormed(b)
    ensures Merge(a, b).Some? ==> Span(Merge(a, b).value) == Span(a) + Span(b)
    ensures Merge(a, b).None? ==> Span(a) * Span(b) == {} && a.max + 1 !in Span(b) && b.max + 1 !in Span(a)
  {
    if Merge(a, b).Some? {
      var h := Merge(a, b).value;
      forall x | x in Span(h) ensures x in Span(a) + Span(b) {
        assert h.min <= x <= h.max;
        if !(a.min <= x <= a.max) {
          assert b.min <= x <= b.max;
        }
      }
    }
  }

  /** A gap of one integer keeps the ranges apart; no gap at all merges them. */
  lemma MergeGapOfOne(lo: int, hi: int, k: nat)
    requires lo <= hi
    ensures Merge(Range(lo, hi), Range(hi + 2, hi + 2 + k)) == None
    ensures Merge(Range(lo, hi), Range(hi + 1, hi + 1 + k)) == Some(Range(lo, hi + 1 + k))
  {
  }

  /** The merge cases the source checks (part1.rs:202-217). */
  lemma MergeCases()
    ensures Merge(Range(0, 4), Range(6, 10)) == None
    ensures Merge(Range(6, 10), Range(0, 4)) == None
    ensures Merge(Range(0, 4), Range(5, 10)) == Some(Range(0, 10))
    ensures Merge(Range(0, 5), Range(5, 10)) == Some(Range(0, 10))
    ensures Merge(Range(0, 5), Range(4, 10)) == Some(Range(0, 10))
    ensures Merge(Range(5, 10), Range(0, 4)) == Some(Range(0, 10))
    ensures Merge(Range(5, 10), Range(0, 5)) == Some(Range(0, 10))
    ensures Merge(Range(5, 10), Range(0, 6)) == Some(Range(0, 10))
    ensures Merge(Range(4, 8), Range(0, 10)) == Some(Range(0, 10))
    ensures Merge(Range(0, 10), Range(4, 8)) == Some(Range(0, 10))
    ensures Merge(Range(0, 10), Range(0, 10)) == Some(Range(0, 10))
    ensures Merge(Range(0, 10), Range(5, 10)) == Some(Range(0, 10))
    ensures Merge(Range(5, 10), Range(0, 10)) == Some(Range(0, 10))
    ensures Merge(Range(0, 5), Range(0, 10)) == Some(Range(0, 10))
    ensures Merge(Range(0, 10), Range(0, 5)) == Some(Range(0, 10))
  {
  }

  /** `partial_cmp` is a total order that compares `max` first and `min` second. */
  lemma PartialCmpIsMaxThenMin(a: Range, b: Range, c: Range)
    ensures PartialCmp(a, b) == Equal <==> a == b
    ensures PartialCmp(a, b) == Less <==> a.max < b.max || (a.max == b.max && a.min < b.min)
    ensures PartialCmp(a, b) == Less <==> PartialCmp(b, a) == Greater
    ensures PartialCmp(a, b) == Less && PartialCmp(b, c) == Less ==> PartialCmp(a, c) == Less
  {
  }

  /** The derived `Ord` is a total order that compares `min` first and `max` second. */
  lemma OrdCmpIsMinThenMax(a: Range, b: Range, c: Range)
    ensures OrdCmp(a, b) == Equal <==> a == b
    ensures OrdCmp(a, b) == Less <==> a.min < b.min || (a.min == b.min && a.max < b.max)
    ensures OrdCmp(a, b) == Less <==> OrdCmp(b, a) == Greater
    ensures OrdCmp(a, b) == Less && OrdCmp(b, c) == Less ==> OrdCmp(a, c) == Less
  {
  }

  /**
   * The two orders of the source agree on well-formed ranges that do not touch,
   * which is all a coalesced tree ever holds.
   */
  lemma OrdersAgreeApart(a: Range, b: Range)
    requires WellFormed(a) && WellFormed(b) && !Touches(a, b)
    ensures PartialCmp(a, b) == OrdCmp(a, b)
  {
  }

  /** They disagree in general: `[4,10]` precedes `[5,6]` in the tree order, follows it under `partial_cmp`. */
  lemma OrdersDisagreeOnNested()
    ensures OrdCmp(Range(4, 10), Range(5, 6)) == Less
    ensures PartialCmp(Range(4, 10), Range(5, 6)) == Greater
  {
  }

  /** The expected order of the sorting test (part1.rs:167-175) is non-decreasing under `partial_cmp` but not under `Ord`. */
  lemma SortTestUsesPartialCmp()
    ensures var sorted := [Range(6, 5), Range(4, 6), Range(4, 10), Range(5, 10), Range(5, 10), Range(6, 10), Range(6, 12)];
      (forall i :: 0 <= i < |sorted| - 1 ==> PartialCmp(sorted[i], sorted[i + 1]) != Greater)
      && OrdCmp(sorted[0], sorted[1]) == Greater
  {
  }
}
