/**
 * Day 3, part 2 (day-03/src/part2.rs): each line is a bank of digits; the
 * joltage of a bank is the largest number that `n` of its digits, kept in
 * order, can spell. `find_highest_set` picks the digits greedily, one
 * window at a time, and `create_digit` reads them as a decimal number.
 */
module Day03Part2 {
  import opened Wrappers
  import opened Text

  // ---------------------------------------------------------------------------
  // `process_line`.

  /** A character below `'0'`: `ch as usize - 0x30` underflows and panics. */
  datatype LineError = BelowZero(position: nat) | ShortLine(line: nat)

  /** The first position holding a character below `'0'`, if any. */
  function FirstBelowZero(line: string): (r: Option<nat>)
    ensures r.None? <==> forall i :: 0 <= i < |line| ==> line[i] >= '0'
    ensures r.Some? ==> (r.value < |line| && line[r.value] < '0'
      && forall i :: 0 <= i < r.value ==> line[i] >= '0')
  {
    if line == [] then None
    else if line[0] < '0' then Some(0)
    else
      match FirstBelowZero(line[1..])
      case None => None
      case Some(p) => Some(p + 1)
  }

  /**
   * `process_line`: every character's code minus `0x30`, so a digit gives
   * its value (and a character above `'9'` a number above nine).
   */
  function ProcessLine(line: string): (r: Result<seq<nat>, LineError>)
    ensures r.Ok? <==> forall i :: 0 <= i < |line| ==> line[i] >= '0'
    ensures r.Ok? ==> (|r.value| == |line|
      && forall i :: 0 <= i < |line| ==> r.value[i] == line[i] as int - 0x30)
    ensures r.Err? ==> r.error.BelowZero? && r.error.position < |line| && line[r.error.position] < '0'
  {
    match FirstBelowZero(line)
    case Some(p) => Err(BelowZero(p))
    case None => Ok(seq(|line|, i requires 0 <= i < |line| => line[i] as int - 0x30))
  }

  /** The digits of a line of decimal digits, most significant first. */
  function Written(values: seq<nat>): (s: string)
    requires forall i :: 0 <= i < |values| ==> values[i] < 10
    ensures AllDigits(s) && |s| == |values|
  {
    seq(|values|, i requires 0 <= i < |values| => DigitChar(values[i]))
  }

  /** `process_line` reads a line of digits back to the digits it shows. */
  lemma ProcessLineWritten(values: seq<nat>)
    requires forall i :: 0 <= i < |values| ==> values[i] < 10
    ensures ProcessLine(Written(values)) == Ok(values)
  {
    var s := Written(values);
    assert forall i :: 0 <= i < |s| ==> s[i] >= '0' && s[i] as int - 0x30 == values[i];
    assert ProcessLine(s).value == values;
  }

  // ---------------------------------------------------------------------------
  // `find_highest_set`.

  /**
   * The inner loop of `find_highest_set` after looking at positions
   * `start..i`: the highest value seen so far (0 before any positive one) and
   * the position just past its first occurrence (`start` if none was positive).
   */
  function Scan(vals: seq<nat>, start: nat, i: nat): (r: (nat, nat))
    requires start <= i <= |vals|
    ensures start <= r.1 <= i
    decreases i
  {
    if i == start then (0, start)
    else
      var (highest, index) := Scan(vals, start, i - 1);
      if vals[i - 1] > highest then (vals[i - 1], i) else (highest, index)
  }

  /**
   * The digits `find_highest_set` picks from step `k` on, when the search
   * starts at `index`: the window for step `k` runs up to `|vals| - (n - k)`,
   * leaving room for the digits still to pick.
   */
  function Greedy(vals: seq<nat>, n: nat, k: nat, index: nat): (r: seq<nat>)
    requires k <= n && index + (n - k) <= |vals|
    ensures |r| == n - k
    decreases n - k
  {
    if k == n then []
    else
      var last := |vals| - (n - k) + 1;
      var (highest, next) := Scan(vals, index, last);
      [highest] + Greedy(vals, n, k + 1, next)
  }

  /**
   * `find_highest_set`: `n` rounds; round `k` scans the window from `index`
   * to `len - (n - k)`, keeps its highest value and moves `index` past the
   * first occurrence of it. With more picks than values the window bound
   * `vals.len() - (n - k)` underflows, hence the precondition.
   */
  method FindHighestSet(vals: seq<nat>, n: nat) returns (result: seq<nat>)
    requires n <= |vals|
    ensures result == Greedy(vals, n, 0, 0)
    ensures |result| == n
  {
    var values := new nat[n](_ => 0);
    var index := 0;
    for k := 0 to n
      invariant index + (n - k) <= |vals|
      invariant values[..k] + Greedy(vals, n, k, index) == Greedy(vals, n, 0, 0)
    {
      var highest := 0;
      var lastDigitToSearch := |vals| - (n - k) + 1;
      var start := index;
      for i := start to lastDigitToSearch
        invariant (highest, index) == Scan(vals, start, i)
      {
        if vals[i] > highest {
          highest := vals[i];
          index := i + 1;
        }
      }
      ghost var rest := Greedy(vals, n, k + 1, index);
      assert Greedy(vals, n, k, start) == [highest] + rest;
      values[k] := highest;
      assert values[..k + 1] == values[..k] + [highest];
    }
    result := values[..];
    assert values[..n] == result;
  }

  // ---------------------------------------------------------------------------
  // What the greedy picks are.

  /**
   * The scan keeps the leftmost maximum: nothing in the window exceeds the
   * value kept, and a positive value kept sits just before the index, with
   * only smaller values before it.
   */
  lemma {:induction false} ScanIsLeftmostMax(vals: seq<nat>, start: nat, i: nat)
    requires start <= i <= |vals|
    ensures var (h, index) := Scan(vals, start, i);
      (forall j :: start <= j < i ==> vals[j] <= h)
      && (h > 0 ==> start < index && vals[index - 1] == h && forall j :: start <= j < index - 1 ==> vals[j] < h)
      && (h == 0 ==> index == start)
    decreases i
  {
    if i > start {
      ScanIsLeftmostMax(vals, start, i - 1);
    }
  }

  predicate AllPositive(vals: seq<nat>) {
    forall i :: 0 <= i < |vals| ==> vals[i] > 0
  }

  /** Positions within a sequence, strictly increasing. */
  predicate Increasing(q: seq<nat>, bound: nat) {
    (forall j :: 0 <= j < |q| ==> q[j] < bound)
    && forall j, l :: 0 <= j < l < |q| ==> q[j] < q[l]
  }

  /** The values at the given positions, in order. */
  function Pick(vals: seq<nat>, q: seq<nat>): (r: seq<nat>)
    requires Increasing(q, |vals|)
    ensures |r| == |q|
  {
    seq(|q|, j requires 0 <= j < |q| => vals[q[j]])
  }

  /** The positions the greedy picks come from. */
  function GreedyPositions(vals: seq<nat>, n: nat, k: nat, index: nat): (r: seq<nat>)
    requires k <= n && index + (n - k) <= |vals|
    ensures |r| == n - k
    decreases n - k
  {
    if k == n then []
    else
      var last := |vals| - (n - k) + 1;
      var (highest, next) := Scan(vals, index, last);
      [if next > 0 then next - 1 else 0] + GreedyPositions(vals, n, k + 1, next)
  }

  /** With positive digits the picks are a subsequence: strictly increasing positions holding exactly those values. */
  lemma {:induction false} GreedyIsSubsequence(vals: seq<nat>, n: nat, k: nat, index: nat)
    requires k <= n && index + (n - k) <= |vals| && AllPositive(vals)
    ensures var p := GreedyPositions(vals, n, k, index);
      Increasing(p, |vals|) && (forall j :: 0 <= j < |p| ==> index <= p[j])
      && Pick(vals, p) == Greedy(vals, n, k, index)
    decreases n - k
  {
    if k < n {
      var last := |vals| - (n - k) + 1;
      var (highest, next) := Scan(vals, index, last);
      ScanIsLeftmostMax(vals, index, last);
      assert vals[index] > 0;
      GreedyIsSubsequence(vals, n, k + 1, next);
      var p := GreedyPositions(vals, n, k, index);
      var g := Greedy(vals, n, k, index);
      assert p == [next - 1] + GreedyPositions(vals, n, k + 1, next);
      assert g == [highest] + Greedy(vals, n, k + 1, next);
      assert Pick(vals, p) == g by {
        forall j | 0 <= j < |p|
          ensures vals[p[j]] == g[j]
        {
          if j > 0 {
            assert p[j] == GreedyPositions(vals, n, k + 1, next)[j - 1];
          }
        }
      }
    }
  }

  /** Lexicographic order on sequences of the same length. */
  predicate LexAtMost(a: seq<nat>, b: seq<nat>)
    requires |a| == |b|
  {
    a == [] || a[0] < b[0] || (a[0] == b[0] && LexAtMost(a[1..], b[1..]))
  }

  /** `m` increasing positions below `bound` start no later than `bound - m`. */
  lemma {:induction false} IncreasingRoom(q: seq<nat>, bound: nat)
    requires Increasing(q, bound) && |q| > 0
    ensures q[0] + |q| <= bound
    decreases |q|
  {
    if |q| > 1 {
      IncreasingRoom(q[1..], bound);
    }
  }

  /**
   * The greedy picks are the lexicographically largest choice: no other way
   * of keeping `n - k` positive digits from `index` on, in order, spells
   * something larger.
   */
  lemma {:induction false} GreedyIsLexLargest(vals: seq<nat>, n: nat, k: nat, index: nat, q: seq<nat>)
    requires k <= n && index + (n - k) <= |vals| && AllPositive(vals)
    requires Increasing(q, |vals|) && |q| == n - k && forall j :: 0 <= j < |q| ==> index <= q[j]
    ensures LexAtMost(Pick(vals, q), Greedy(vals, n, k, index))
    decreases n - k
  {
    if k < n {
      var last := |vals| - (n - k) + 1;
      var (highest, next) := Scan(vals, index, last);
      ScanIsLeftmostMax(vals, index, last);
      IncreasingRoom(q, |vals|);
      var a, g := Pick(vals, q), Greedy(vals, n, k, index);
      assert g == [highest] + Greedy(vals, n, k + 1, next);
      assert a[0] == vals[q[0]] <= highest;
      if a[0] == highest {
        var rest := q[1..];
        assert Increasing(rest, |vals|);
        assert forall j :: 0 <= j < |rest| ==> next <= rest[j] by {
          forall j | 0 <= j < |rest|
            ensures next <= rest[j]
          {
            assert rest[j] == q[j + 1] > q[0];
          }
        }
        GreedyIsLexLargest(vals, n, k + 1, next, rest);
        assert a[1..] == Pick(vals, rest);
      }
    }
  }

  // ---------------------------------------------------------------------------
  // `create_digit`.

  /** `create_digit`: Σ `values[i] * 10^(n - 1 - i)`, the digits read as a decimal number. */
  function CreateDigit(values: seq<nat>): nat {
    if values == [] then 0 else values[0] * Pow10(|values| - 1) + CreateDigit(values[1..])
  }

  /** Appending a digit shifts the number one place: Horner's rule. */
  lemma {:induction false} CreateDigitAppend(values: seq<nat>, d: nat)
    ensures CreateDigit(values + [d]) == 10 * CreateDigit(values) + d
    decreases |values|
  {
    if values != [] {
      CreateDigitAppend(values[1..], d);
      assert (values + [d])[1..] == values[1..] + [d];
      assert Pow10(|values|) == 10 * Pow10(|values| - 1);
    }
  }

  /** `create_digit` of the digits of a numeral is the number the numeral denotes. */
  lemma {:induction false} CreateDigitReadsNumeral(s: string)
    requires AllDigits(s)
    ensures CreateDigit(seq(|s|, i requires 0 <= i < |s| => DigitValue(s[i]))) == DigitsValue(s)
    decreases |s|
  {
    if s != [] {
      var init := s[..|s| - 1];
      CreateDigitReadsNumeral(init);
      var ds := seq(|s|, i requires 0 <= i < |s| => DigitValue(s[i]));
      var di := seq(|init|, i requires 0 <= i < |init| => DigitValue(init[i]));
      assert ds == di + [DigitValue(s[|s| - 1])];
      CreateDigitAppend(di, DigitValue(s[|s| - 1]));
    }
  }

  /** Digits below ten spell a number with at most that many digits. */
  lemma {:induction false} CreateDigitBound(values: seq<nat>)
    requires forall i :: 0 <= i < |values| ==> values[i] < 10
    ensures CreateDigit(values) < Pow10(|values|)
    decreases |values|
  {
    if values != [] {
      CreateDigitBound(values[1..]);
      ShiftedDigitsAtMost(values[0], 10, Pow10(|values| - 1));
    }
  }

  lemma ShiftedDigitsAtMost(x: nat, y: nat, p: nat)
    requires x < y
    ensures x * p + p <= y * p
    decreases y - x
  {
    if x + 1 < y {
      ShiftedDigitsAtMost(x, y - 1, p);
    }
    assert y * p == (y - 1) * p + p;
  }

  /** For digits, lexicographic order and numeric order agree. */
  lemma {:induction false} LexOrderIsNumericOrder(a: seq<nat>, b: seq<nat>)
    requires |a| == |b|
    requires forall i :: 0 <= i < |a| ==> a[i] < 10 && b[i] < 10
    requires LexAtMost(a, b)
    ensures CreateDigit(a) <= CreateDigit(b)
    decreases |a|
  {
    if a != [] {
      var p := Pow10(|a| - 1);
      if a[0] < b[0] {
        CreateDigitBound(a[1..]);
        ShiftedDigitsAtMost(a[0], b[0], p);
      } else {
        LexOrderIsNumericOrder(a[1..], b[1..]);
      }
    }
  }

  /**
   * The answer for one bank: among all ways to keep `n` of its digits (all
   * of them 1 to 9) in order, the greedy picks spell the largest number, and
   * they are one of those ways.
   */
  lemma GreedyIsLargestNumber(vals: seq<nat>, n: nat, q: seq<nat>)
    requires n <= |vals| && forall i :: 0 <= i < |vals| ==> 0 < vals[i] < 10
    requires Increasing(q, |vals|) && |q| == n
    ensures CreateDigit(Pick(vals, q)) <= CreateDigit(Greedy(vals, n, 0, 0))
    ensures Increasing(GreedyPositions(vals, n, 0, 0), |vals|)
      && Pick(vals, GreedyPositions(vals, n, 0, 0)) == Greedy(vals, n, 0, 0)
  {
    GreedyIsLexLargest(vals, n, 0, 0, q);
    GreedyIsSubsequence(vals, n, 0, 0);
    var g := Greedy(vals, n, 0, 0);
    assert forall j :: 0 <= j < |g| ==> g[j] < 10 by {
      forall j | 0 <= j < |g|
        ensures g[j] < 10
      {
        assert g[j] == Pick(vals, GreedyPositions(vals, n, 0, 0))[j];
      }
    }
    LexOrderIsNumericOrder(Pick(vals, q), g);
  }

  // ---------------------------------------------------------------------------
  // `process`.

  /** Every bank has at least `n` digits to pick from. */
  predicate LongEnough(banks: seq<seq<nat>>, n: nat) {
    forall i :: 0 <= i < |banks| ==> n <= |banks[i]|
  }

  /** The sum over the banks of their joltage, bank by bank. */
  function TotalJoltage(banks: seq<seq<nat>>, n: nat): int
    requires LongEnough(banks, n)
  {
    if banks == [] then 0
    else TotalJoltage(banks[..|banks| - 1], n) + CreateDigit(Greedy(banks[|banks| - 1], n, 0, 0))
  }

  /** The banks a sequence of lines reads as, or the first line that fails. */
  function ReadBanks(lines: seq<string>): (r: Result<seq<seq<nat>>, LineError>)
    ensures r.Ok? ==> (|r.value| == |lines|
      && forall i :: 0 <= i < |lines| ==> ProcessLine(lines[i]) == Ok(r.value[i]))
    ensures r.Ok? <==> forall i :: 0 <= i < |lines| ==> ProcessLine(lines[i]).Ok?
  {
    if lines == [] then Ok([])
    else
      var rest := ReadBanks(lines[1..]);
      assert forall i :: 1 <= i < |lines| ==> lines[i] == lines[1..][i - 1];
      match ProcessLine(lines[0])
      case Err(e) => Err(e)
      case Ok(b) =>
        match rest
        case Err(e) => Err(e)
        case Ok(bs) => Ok([b] + bs)
  }

  /** The summing map of `process` over banks already read: the first bank shorter than `n` makes `find_highest_set` underflow. */
  method SumJoltage(banks: seq<seq<nat>>, n: nat) returns (r: Result<int, LineError>)
    ensures r.Ok? <==> LongEnough(banks, n)
    ensures r.Ok? ==> r.value == TotalJoltage(banks, n)
    ensures r.Err? ==> r.error.ShortLine? && r.error.line < |banks| && |banks[r.error.line]| < n
  {
    var sum := 0;
    for i := 0 to |banks|
      invariant LongEnough(banks[..i], n)
      invariant sum == TotalJoltage(banks[..i], n)
    {
      if |banks[i]| < n {
        return Err(ShortLine(i));
      }
      var vals := FindHighestSet(banks[i], n);
      ghost var done := banks[..i + 1];
      assert done[..i] == banks[..i] && done[i] == banks[i];
      assert LongEnough(done, n);
      sum := sum + CreateDigit(vals);
    }
    assert banks[..|banks|] == banks;
    return Ok(sum);
  }

  /**
   * `process` without the file: every line read as a bank, then every
   * bank's 12 greedy picks read as a number, summed.
   */
  method Process(lines: seq<string>) returns (r: Result<int, LineError>)
    ensures r.Ok? <==> ReadBanks(lines).Ok? && LongEnough(ReadBanks(lines).value, 12)
    ensures r.Ok? ==> r.value == TotalJoltage(ReadBanks(lines).value, 12)
  {
    var data := ReadBanks(lines);
    if data.Err? {
      return Err(data.error);
    }
    r := SumJoltage(data.value, 12);
  }
}
