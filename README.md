# Advent of Code 2025 solvers, days 1 to 7, in Dafny

This project models the puzzle solvers of the `aoc-2025` Rust workspace.
Each day is one crate, and each solver is a handful of functions over the
puzzle input. There is one Dafny module per source file:

- **Day 1** (`Day01Part1`, `Day01Part2`): a dial with the marks 0 to 99 starts
  at 50 and is turned by moves such as `L68` or `R48`. Part 1 counts the moves
  that end on 0. Part 2 means to count every click that lands on 0; as
  written it counts a move that starts on 0 with a multiple of 100 once too
  often (see "Findings").
- **Day 2** (`Day02Part1`, `Day02Part2`): a comma-separated list of
  `lo-hi` id ranges. Part 2 adds up every id whose decimal numeral is some
  block repeated at least twice.
- **Day 3** (`Day03Part2`): each line is a bank of digits. The greedy
  `find_highest_set` picks 12 of them, in order, to form the largest number,
  and the numbers are added up.
- **Day 4** (`Day04Part1`, `Day04Part2`): a grid of paper rolls `@` is padded
  with a border of floor. A roll with fewer than 5 neighbours (part 1) or
  fewer than 4 (part 2) is accessible. Part 2 removes accessible rolls round
  by round until none is left.
- **Day 5** (`Day05Range`, `Day05Part1`, `Day05Part2`): the interval set.
  Inclusive id ranges are inserted one by one into an ordered set of ranges.
  Each insertion first absorbs every stored range that overlaps or is
  adjacent to the new one. Part 1 counts the query ids that fall in some range.
  Part 2 counts every id covered.
- **Day 6** (`Day06Part2`): a worksheet of whitespace-separated columns.
  The last row gives each column's operator, `*` or `+`. The column results
  are added up.
- **Day 7** (`Day07Part1`): a tachyon beam falls from `S` through a grid.
  Each splitter `^` it hits sends beams to its left and right. The solver
  counts the splitters hit.

Shared modules:

- `Wrappers`: `Option`, `Result`, and `Collect`, which turns a sequence of
  results into a result of a sequence, as Rust's `collect` does.
- `Text`: the Rust string operations the solvers use: `split`, `lines`,
  `split_whitespace`, `parse` and `to_string`.
- `RustInt`: Rust's truncating `/` and `%`, and the integer limits.

How Rust constructs are modelled:

- Every `unwrap`, `panic!`, `unreachable!`, arithmetic underflow and
  out-of-bounds index that an input can reach is modelled as an error value
  (`Err` or `None`), except the ones listed under "Left out". A
  precondition is used only where a caller inside the program never
  reaches the panic. Those are listed under "Left out" too.
- Code that loops and mutates becomes a method with loop invariants. Each
  such method is proved against a function that specifies it.
- `AirSpace`, whose methods update the grid in place, is a class.
- The day-5 `BTreeSet<Range>` is a sequence kept sorted by the derived
  `Ord`, i.e. by `min` and then by `max`. `TreeInsert` and `TreeRemove`
  are its operations, and `TreeIsItsElements` shows the sequence is
  determined by its elements.

## Model

| member | source | states |
|---|---|---|
| Day01Part1.ParseRecord | day-01/src/part1.rs:18-28 | an accepted record starts with `L` or `R`, matching its direction, and its distance is an `i32` |
| Day01Part1.ParseSpelled | day-01/src/part1.rs:18-28 | a move written out as its letter and its decimal distance parses back to the same move (round trip) |
| Day01Part1.ParseRecordErrors | day-01/src/part1.rs:20-26 | the empty record, a direction other than `L`/`R`, a missing distance and a distance beyond `i32::MAX` are each rejected with their own error |
| Day01Part1.ParseRecords | day-01/src/part1.rs:18-29 | the records parse exactly when each one does, giving one move per record in order; otherwise the error is one record's error |
| Day01Part1.DialIsSum | day-01/src/part1.rs:35-57 | after any moves the dial reads (50 + the signed sum of the distances) mod 100, in 0..99 |
| Day01Part1.LandingsAtMostMoves | day-01/src/part1.rs:54 | at most one landing on 0 is counted per move |
| Day01Part1.ProcessMoves | day-01/src/part1.rs:35-57 | the count lies between 0 and the number of moves; the dial is congruent to 50 plus the signed sum; for non-negative distances the dial is the reference `Dial` and the count is the number of moves ending on 0 |
| Day01Part1.StepCongruent | day-01/src/part1.rs:41-52 | either wrap branch of one move keeps the dial congruent to the signed turn, and with a non-negative distance it is exactly the turn mod 100 |
| Day01Part1.Process | day-01/src/part1.rs:14-33 | parsing errors are passed on; otherwise the result is the landing count and the final dial of the parsed moves |
| Day01Part1.OneMove | day-01/src/part1.rs:71-124 | a single move leaves the dial at its turn from 50 and counts 1 exactly when that turn is 0 |
| Day01Part2.RightClicks | day-01/src/part2.rs:54-65 | turning right by c clicks from dial d passes 0 exactly (d + c) / 100 times |
| Day01Part2.LeftClicks | day-01/src/part2.rs:41-53 | turning left by c clicks from dial d passes 0 exactly ((100 − d) mod 100 + c) / 100 times |
| Day01Part2.StepAsWritten | day-01/src/part2.rs:41-67 | one iteration as written moves the dial by the turn and adds the clicks at 0, plus one extra when the dial starts at 0 and the distance is a multiple of 100 |
| Day01Part2.StepCorrected | day-01/src/part2.rs:41-67 | the corrected iteration adds exactly the clicks at 0 |
| Day01Part2.ProcessMoves | day-01/src/part2.rs:35-71 | as written: for non-negative distances the count is the clicks at 0 plus the restarts on 0 counted twice, and the dial is the reference dial |
| Day01Part2.ProcessMovesCorrected | day-01/src/part2.rs:35-71 | corrected: for non-negative distances the count is exactly the number of clicks that land on 0 |
| Day01Part2.Process | day-01/src/part2.rs:14-33 | parsing errors are passed on; otherwise the result is the as-written count (the clicks at 0 plus the restarts on 0) and the final dial |
| Day01Part2.ProcessCorrected | day-01/src/part2.rs:14-33 | the same with the corrected count: exactly the clicks at 0, and the final dial |
| Day01Part2.Appended | day-01/src/part2.rs:39-69 | one more move adds its clicks at 0 and, if it starts on 0 with a multiple of 100, one restart |
| Day01Part2.SampleCounts | day-01/src/part2.rs:85-115 | the sample moves pass 0 six times and never restart on 0, so the as-written count is also 6 |
| Day01Part2.SampleNonNegative | day-01/src/part2.rs:85-115 | every distance of the sample is non-negative |
| Day01Part2.FromStart | day-01/src/part2.rs:117-247 | one non-negative move from 50 ends at the turned dial, and `process_moves` counts its passes over 0 in closed form; the single-move tests follow from it |
| Day02Part1.ParsePair | day-02/src/part1.rs:15-18 | an accepted element gives two `usize` values; an element without `-` is rejected, and only such an element gets the missing-dash error |
| Day02Part1.ParsePairs | day-02/src/part1.rs:14-20 | the elements parse exactly when each one does, one pair per element in order; otherwise the error is one element's error |
| Day02Part1.ProcessInput | day-02/src/part1.rs:10-22 | the line parses exactly when every comma-separated element does, giving one pair per element in order |
| Day02Part1.ParsePairText | day-02/src/part1.rs:15-18 | `lo-hi` written from two `usize` values parses back to the pair |
| Day02Part1.ProcessInputWritten | day-02/src/part1.rs:10-22 | a non-empty list of pairs written with commas parses back to the same list |
| Day02Part1.EmptyLineRejected | day-02/src/part1.rs:11-18 | an empty line is one empty element, whose number does not parse |
| Day02Part1.NoDashRejected | day-02/src/part1.rs:15-17 | a lone number is missing its dash |
| Day02Part1.EmptyNumberRejected | day-02/src/part1.rs:15-18 | a doubled dash leaves an empty second number, which does not parse |
| Day02Part1.ExtraDashIgnored | day-02/src/part1.rs:15-18 | anything after a second dash is ignored, because only the first two pieces are read |
| Day02Part1.ShortNumeralsParse | day-02/src/part1.rs:15-18 | two digit strings of at most 19 digits joined by `-` always parse |
| Day02Part1.Process | day-02/src/part1.rs:24-35 | the value is always "sup"; it is returned exactly when there is a first line and it parses; no lines is an error |
| Day02Part2.Chunks | day-02/src/part2.rs:25-39 | the chunks all have the chunk size and concatenate back to the numeral |
| Day02Part2.SplitString | day-02/src/part2.rs:25-39 | the set is the set of chunks of the given size, and empty for the empty numeral |
| Day02Part2.ChunksOfRepeat | day-02/src/part2.rs:25-39 | a block repeated n times splits into n copies of the block |
| Day02Part2.ChunksCons | day-02/src/part2.rs:30-36 | the chunks are the first chunk followed by the chunks of the rest |
| Day02Part2.ChunkSetCons | day-02/src/part2.rs:30-36 | the chunk set is the first chunk added to the chunk set of the rest |
| Day02Part2.ChunksOfOne | day-02/src/part2.rs:25-39 | chunks of size one are the numeral's characters |
| Day02Part2.CharChunk | day-02/src/part2.rs:25-39 | every character is a size-one chunk |
| Day02Part2.TwoChunks | day-02/src/part2.rs:49 | two different chunks mean the chunk set does not have exactly one element |
| Day02Part2.ConcatOfCopies | day-02/src/part2.rs:25-39 | concatenating n copies of a block is the block repeated n times |
| Day02Part2.RepeatLength | day-02/src/part2.rs:44-46 | a repeated block's length is a multiple of the block's, and at least twice it for two or more copies |
| Day02Part2.RepetitionIffOneChunk | day-02/src/part2.rs:44-53 | a numeral is a block repeated at least twice exactly when some size up to half its length divides it and gives a single chunk |
| Day02Part2.IsValidId | day-02/src/part2.rs:41-56 | an id is valid exactly when its decimal numeral is not a block repeated at least twice |
| Day02Part2.SingleDigitValid | day-02/src/part2.rs:44 | single-digit ids are valid |
| Day02Part2.TwoCharRepetition | day-02/src/part2.rs:41-56 | a two-character numeral is a repetition exactly when both characters agree |
| Day02Part2.TwoDigitInvalid | day-02/src/part2.rs:41-56 | a two-digit id is invalid exactly when it is a multiple of 11 |
| Day02Part2.SingleDigitRange | day-02/src/part2.rs:68-74 | a range ending below 10 holds no invalid id |
| Day02Part2.SumInvalidIds | day-02/src/part2.rs:67-75 | the sum is the total of the invalid ids over all the ranges, `lo` to `hi` inclusive |
| Day02Part2.Process | day-02/src/part2.rs:58-78 | a result exactly when the first line parses, and it is the total of the invalid ids in its ranges; no lines is an error |
| Day02Examples.SampleParses | day-02/src/part1.rs:49-55 | the example line reads as eleven pairs |
| Day02Examples.Chunks112233 | day-02/src/part2.rs:100-123 | `112233` in chunks of two is {`11`, `22`, `33`} |
| Day02Examples.ChunksOfOneExample | day-02/src/part2.rs:100-123 | chunks of one give the numeral's distinct characters (`11`, `211`, `112`) |
| Day02Examples.Valid12 | day-02/src/part2.rs:125-142 | 12 is valid |
| Day02Examples.Valid101 | day-02/src/part2.rs:125-142 | 101 is valid |
| Day02Examples.Valid1122 | day-02/src/part2.rs:125-142 | 1122 is valid |
| Day02Examples.ValidSeven | day-02/src/part2.rs:125-142 | a seven-digit numeral whose first and last digits differ is valid |
| Day02Examples.Valid9999990 | day-02/src/part2.rs:125-142 | 9999990 is valid |
| Day02Examples.Invalid11 | day-02/src/part2.rs:125-142 | 11 is invalid |
| Day02Examples.Invalid111 | day-02/src/part2.rs:125-142 | 111 is invalid |
| Day02Examples.Invalid1212 | day-02/src/part2.rs:125-142 | 1212 is invalid |
| Day02Examples.Invalid121212 | day-02/src/part2.rs:125-142 | 121212 is invalid |
| Day02Examples.Invalid9999999 | day-02/src/part2.rs:125-142 | 9999999 is invalid |
| Day02Examples.Invalid1188511885 | day-02/src/part2.rs:125-142 | 1188511885 is invalid |
| Day02Examples.FirstRangeSum | day-02/src/part2.rs:67-75 | the invalid ids of `11-22` add up to 33 |
| Day03Part2.FirstBelowZero | day-03/src/part2.rs:10-12 | finds a character below `0` exactly when there is one, and it is the first |
| Day03Part2.ProcessLine | day-03/src/part2.rs:10-12 | a line converts exactly when no character is below `0`, each value being the character's code minus 0x30; otherwise the error names the offending position |
| Day03Part2.ProcessLineWritten | day-03/src/part2.rs:10-12 | digits written as characters convert back to the same digits |
| Day03Part2.Scan | day-03/src/part2.rs:25-33 | the position the inner scan keeps stays within the window scanned |
| Day03Part2.Greedy | day-03/src/part2.rs:22-35 | the greedy choice from step k on has exactly n − k digits |
| Day03Part2.ScanIsLeftmostMax | day-03/src/part2.rs:26-33 | the inner scan finds the largest value in its window and the position just after its first occurrence, or 0 and the old position when the window holds only zeros |
| Day03Part2.FindHighestSet | day-03/src/part2.rs:14-37 | the loop produces the greedy choice, of exactly n digits |
| Day03Part2.GreedyIsSubsequence | day-03/src/part2.rs:22-34 | for positive digits the greedy digits are read at increasing positions of the bank |
| Day03Part2.GreedyIsLexLargest | day-03/src/part2.rs:22-34 | for positive digits no choice of n digits at increasing positions is lexicographically larger than the greedy one |
| Day03Part2.GreedyIsLargestNumber | day-03/src/part2.rs:14-44 | for digits 1 to 9 the greedy digits form the largest number that n digits taken in order can form, and they are a subsequence |
| Day03Part2.CreateDigitAppend | day-03/src/part2.rs:39-44 | appending a digit multiplies the number by ten and adds the digit |
| Day03Part2.CreateDigitReadsNumeral | day-03/src/part2.rs:39-44 | the number built from a numeral's digits is the numeral's value |
| Day03Part2.CreateDigitBound | day-03/src/part2.rs:39-44 | n digits build a number below 10^n |
| Day03Part2.LexOrderIsNumericOrder | day-03/src/part2.rs:39-44 | for equally long digit sequences, lexicographic order is numeric order |
| Day03Part2.ReadBanks | day-03/src/part2.rs:4-8 | the lines convert exactly when each one does, one bank per line |
| Day03Part2.SumJoltage | day-03/src/part2.rs:49-53 | a result exactly when every bank has at least n digits, and it is the total of the greedy numbers; otherwise the error names a short line |
| Day03Part2.Process | day-03/src/part2.rs:46-56 | a result exactly when the lines convert and each has 12 digits or more, and it is the total of the 12-digit greedy numbers |
| Day03Examples.ProcessLineExample | day-03/src/part2.rs:78-84 | `0123456789` converts to 0 to 9 |
| Day03Examples.CreateDigitExample | day-03/src/part2.rs:128-135 | [9, 5, 1, 8] builds 9518 |
| Day03Examples.PairLast | day-03/src/part2.rs:86-91 | the test's pair with the highest digit last |
| Day03Examples.PairFirst | day-03/src/part2.rs:93-98 | the test's pair with the highest digit first |
| Day03Examples.PairSameDigit | day-03/src/part2.rs:100-105 | the test's pair of two equal highest digits |
| Day03Examples.PairSecond | day-03/src/part2.rs:107-112 | the test's pair found after a lower first digit |
| Day03Examples.Trio | day-03/src/part2.rs:114-119 | the test's three digits |
| Day03Examples.Quad | day-03/src/part2.rs:121-126 | the test's four digits |
| Day04Part1.ReadLine | day-04/src/part1.rs:7-11 | a line reads exactly when it holds only `@` and `.`, as 1 and 0; otherwise the error names the offending cell |
| Day04Part1.ReadGrid | day-04/src/part1.rs:4-12 | the lines read exactly when each one does, one row per line |
| Day04Part1.PadInto | day-04/src/part1.rs:18-24 | the copy succeeds exactly when every cell fits the allocated grid shifted by one, and gives that grid; otherwise it is the out-of-bounds panic |
| Day04Part1.BufferedGrid | day-04/src/part1.rs:14-27 | as written: the allocation has n_cols + 2 rows of n_rows + 2 cells, the copy succeeds exactly when the grid fits that, and the reported size is (n_rows + 2, n_cols + 2); an empty grid is an error |
| Day04Part1.BufferedGridCorrected | day-04/src/part1.rs:14-27 | corrected: n_rows + 2 rows of n_cols + 2 cells, and the result is a rectangle of the reported size |
| Day04Part1.PaddedFrame | day-04/src/part1.rs:14-27 | padding a rectangular grid gives a border of zeros around a copy of the grid |
| Day04Part1.SwappedAllocation | day-04/src/part1.rs:18 | the one-row grid `@@` comes back as 4 rows of 3 cells reported as 3 by 4; three one-cell rows do not fit and panic; the corrected padding handles both |
| Day04Part1.WindowIsNeighbourSum | day-04/src/part1.rs:33-42 | the nested loops over the 3×3 window, skipping the centre, add up the eight neighbours |
| Day04Part1.FindNBlocking | day-04/src/part1.rs:29-43 | `None` exactly when the cell is floor; otherwise the sum of its eight neighbours |
| Day04Part1.InteriorHasNeighbourhood | day-04/src/part1.rs:47-48 | every interior cell of a grid of the stated size has all eight neighbours |
| Day04Part1.RowAccessibleMembers | day-04/src/part1.rs:48-55 | the scan of a row lists exactly its accessible rolls, in column order |
| Day04Part1.GridAccessibleMembers | day-04/src/part1.rs:47-56 | the scan lists exactly the accessible interior rolls, in row-major order |
| Day04Part1.RowMajorCard | day-04/src/part1.rs:47-56 | a list in strict row-major order has no repeats |
| Day04Part1.AccessibleCount | day-04/src/part1.rs:45-58 | the rolls found are exactly the accessible ones, each once, all of them rolls, so there are at most as many as there are rolls |
| Day04Part1.FindNAccessible | day-04/src/part1.rs:45-58 | the total is the number of interior rolls with fewer than five neighbours |
| Day04Part1.Process | day-04/src/part1.rs:60-68 | reading errors are passed on; the result counts the accessible rolls of the padded grid; a rectangular grid is always accepted |
| Day04Part2.FindCoordsAccessible | day-04/src/part2.rs:45-69 | the coordinates are exactly the interior rolls with fewer than four neighbours, in row-major order |
| Day04Part2.Cleared | day-04/src/part2.rs:71-75 | clearing listed cells only turns cells to floor |
| Day04Part2.ApplyCoords | day-04/src/part2.rs:71-75 | the listed cells become 0, every other cell is unchanged, and the shape is kept: the result is `Cleared` |
| Day04Part2.RoundRemoves | day-04/src/part2.rs:82-90 | one round removes exactly the accessible rolls, and the roll count falls by their number |
| Day04Part2.NeighboursOnlyDrop | day-04/src/part2.rs:77-96 | removing rolls can only lower a cell's neighbour sum |
| Day04Part2.StableIffNoneFound | day-04/src/part2.rs:84-86 | a round finds nothing exactly when every interior roll has at least four rolls around it |
| Day04Part2.Rounds | day-04/src/part2.rs:77-96 | the rounds, each clearing all accessible rolls at once, end in a grid that only lost rolls and in which every roll has at least four neighbours |
| Day04Part2.AccessibleNotKept | day-04/src/part2.rs:84-88 | a roll accessible in a grid is floor in every stable thinning of it |
| Day04Part2.RoundKeepsStable | day-04/src/part2.rs:84-88 | a stable thinning of the grid is still a thinning after one round |
| Day04Part2.RoundsKeepStable | day-04/src/part2.rs:77-96 | every stable thinning of the grid is a thinning of the rounds' result: the rounds leave the largest stable set of rolls and remove no roll they need not |
| Day04Part2.ThinnedRolls | day-04/src/part2.rs:71-75 | a thinning has no roll its grid lacks |
| Day04Part2.StableGridKept | day-04/src/part2.rs:77-96 | a grid in which every roll has four neighbours loses none |
| Day04Part2.RemoveAllTp | day-04/src/part2.rs:77-96 | the grid left is exactly the rounds' result, and the total is the number of rolls removed |
| Day04Part2.Process | day-04/src/part2.rs:98-106 | reading errors are passed on; the result is the number of rolls of the padded grid that the rounds remove; a rectangular grid is always accepted |
| Day04Examples.NinePads | day-04/src/part1.rs:83-106 | the 3×3 test grid pads to the expected 5×5 grid |
| Day04Examples.Part1NeighbourSums | day-04/src/part1.rs:108-132 | the neighbour sums of the test grid's interior |
| Day04Examples.Part1Accessible | day-04/src/part1.rs:134-149 | four rolls of the test grid are accessible |
| Day04Examples.Part2BlockingSums | day-04/src/part2.rs:154-178 | the neighbour sums of part 2's test grid |
| Day04Examples.Part2NeighbourSums | day-04/src/part2.rs:197-226 | the neighbour sums of the removal tests' grid |
| Day04Examples.Part2SmallAccessible | day-04/src/part2.rs:180-195 | all four rolls of the small test grid are accessible |
| Day04Examples.Part2Accessible | day-04/src/part2.rs:197-226 | the scan lists (1,1), (2,1), (2,3), (3,2) |
| Day04Examples.Part2Cleared | day-04/src/part2.rs:213-223 | clearing those four leaves only the middle roll |
| Day04Examples.Part2Rolls | day-04/src/part2.rs:228-243 | the test grid holds five rolls |
| Day04Examples.Part2AllRemoved | day-04/src/part2.rs:228-243 | no stable thinning of the test grid keeps a roll, so the rounds remove all 5 |
| Day04Examples.BlockStable | day-04/src/part2.rs:77-96 | in a 4×4 block of rolls without its corners every roll has at least four neighbours, so `remove_all_tp` removes none |
| Day05Range.Merge | day-05/src/part1.rs:24-33 | two well-formed ranges merge exactly when they overlap or are adjacent, and the merge is their hull |
| Day05Range.MergeSymmetric | day-05/src/part1.rs:24-33 | merging does not depend on the order of the two ranges |
| Day05Range.MergeSelf | day-05/src/part1.rs:24-33 | a well-formed range merges with itself into itself |
| Day05Range.MergeUnion | day-05/src/part1.rs:24-33 | a merge covers exactly the union of the two ranges; ranges that do not merge are disjoint with a gap between them |
| Day05Range.MergeGapOfOne | day-05/src/part1.rs:28-29 | a gap of one missing id stops a merge; adjacent ranges merge |
| Day05Range.MergeCases | day-05/src/part1.rs:202-225 | the merge test's fifteen cases |
| Day05Range.PartialCmpIsMaxThenMin | day-05/src/part1.rs:12-21 | `partial_cmp` orders by `max` and then by `min`, is antisymmetric, transitive, and equal only for equal ranges |
| Day05Range.OrdCmpIsMinThenMax | day-05/src/part1.rs:6 | the derived `Ord` orders by `min` and then by `max`, as a strict total order |
| Day05Range.OrdersAgreeApart | day-05/src/part1.rs:6-21 | on well-formed ranges that do not touch, the two orders agree |
| Day05Range.OrdersDisagreeOnNested | day-05/src/part1.rs:6-21 | on nested ranges the two orders disagree |
| Day05Range.SortTestUsesPartialCmp | day-05/src/part1.rs:153-178 | the ordering test's expected order is sorted by `partial_cmp`, not by the derived `Ord` |
| Day05Part1.TreeInsert | day-05/src/part1.rs:78-80 | the set after insertion is the old set plus the range, still sorted |
| Day05Part1.TreeRemove | day-05/src/part1.rs:76-77 | the set after removal is the old set without the range, still sorted |
| Day05Part1.TreeIsItsElements | day-05/src/part1.rs:71-84 | two sorted sets with the same elements are equal |
| Day05Part1.EmptyHasNoElements | day-05/src/part1.rs:71-84 | a set is empty exactly when it has no element |
| Day05Part1.Separated | day-05/src/part1.rs:57-84 | in a coalesced set, each range ends at least two ids before the next one starts |
| Day05Part1.CoalescedSortedByPartialCmp | day-05/src/part1.rs:6-21 | a coalesced set is sorted by `partial_cmp` and by `Ord` alike |
| Day05Part1.InCover | day-05/src/part1.rs:86-101 | an id is covered exactly when some range of the set contains it |
| Day05Part1.InPairsCover | day-05/src/part1.rs:71-84 | an id is in the input's cover exactly when some input pair contains it |
| Day05Part1.Touching | day-05/src/part1.rs:57-69 | the ranges that touch a given range, in set order |
| Day05Part1.TouchingSame | day-05/src/part1.rs:57-69 | two candidate ranges touched by the same stored ranges give the same list |
| Day05Part1.GrowingKeepsEarlierApart | day-05/src/part1.rs:60-66 | growing the candidate by a stored range it touches brings in no earlier stored range |
| Day05Part1.InspectBTreeForInsertion | day-05/src/part1.rs:57-69 | the ranges to remove come from the set; nothing to remove leaves the candidate unchanged; the result contains the candidate; on a coalesced set the result covers the candidate plus the removed ranges, and those are exactly the stored ranges that touch it |
| Day05Part1.ScanStep | day-05/src/part1.rs:60-66 | one step of the scan keeps that invariant |
| Day05Part1.ScanStepGrows | day-05/src/part1.rs:62-65 | absorbing a touched stored range grows the candidate to their union and appends that range to the ones to remove, which are still exactly those touching the grown candidate |
| Day05Part1.ScanStepSkips | day-05/src/part1.rs:60-66 | a stored range the candidate does not touch leaves the list of touching ranges unchanged |
| Day05Part1.InsertionStep | day-05/src/part1.rs:73-81 | replacing the touched ranges by the merged one keeps the set coalesced and adds exactly the new range's ids |
| Day05Part1.InsertionKeepsCoalesced | day-05/src/part1.rs:73-81 | one insertion keeps the set coalesced |
| Day05Part1.InsertionCover | day-05/src/part1.rs:73-81 | one insertion adds exactly the new range's ids |
| Day05Part1.InsertionStepApart | day-05/src/part1.rs:73-81 | after one insertion no two stored ranges touch |
| Day05Part1.InsertionStepAt | day-05/src/part1.rs:73-81 | after one insertion an id is covered exactly when it was covered before or lies in the new range |
| Day05Part1.RemoveMarked | day-05/src/part1.rs:76-79 | every marked range leaves the tree, which stays sorted, and no other range is added or removed |
| Day05Part1.InsertPair | day-05/src/part1.rs:74-81 | inserting one well-formed pair keeps a coalesced tree coalesced and adds exactly the pair's ids to its cover |
| Day05Part1.PrefixStep | day-05/src/part1.rs:73 | the ids covered by the first k+1 pairs are those of the first k plus the ids of pair k |
| Day05Part1.ToBTreeSet | day-05/src/part1.rs:71-84 | the result is a sorted set; for well-formed pairs it is coalesced and covers exactly the ids of the pairs |
| Day05Part1.CountCoveredIsCountInCover | day-05/src/part1.rs:86-101 | counting the values some range contains is counting the values in the cover |
| Day05Part1.SearchBTreeSet | day-05/src/part1.rs:86-101 | the count is the number of values, repeats included, that some range contains |
| Day05Part1.ProcessBTreeSet | day-05/src/part1.rs:103-110 | for well-formed pairs the count is the number of values in the cover of the pairs |
| Day05Part2.TotalLengthAtLeastCount | day-05/src/part2.rs:6-12 | each well-formed range adds at least one id |
| Day05Part2.CountAllFreshIds | day-05/src/part2.rs:6-12 | the count is the sum of the range lengths, at least one per well-formed range |
| Day05Part2.SpanSize | day-05/src/part2.rs:9 | a range holds max − min + 1 ids |
| Day05Part2.PrefixCoalesced | day-05/src/part2.rs:6-12 | a prefix of a coalesced set is coalesced |
| Day05Part2.SuffixCoalesced | day-05/src/part2.rs:6-12 | a suffix of a coalesced set is coalesced |
| Day05Part2.TotalLengthIsCoverSize | day-05/src/part2.rs:6-12 | on a coalesced set the sum of the lengths is the number of ids covered |
| Day05Part2.FirstRange | day-05/src/part2.rs:6-12 | the first range of a coalesced set starts at the smallest covered id, is followed by an uncovered id, and the rest covers the remaining ids |
| Day05Part2.CoalescedIsCanonical | day-05/src/part1.rs:71-84 | two coalesced sets with the same cover are equal |
| Day05Part2.PairsCoverOrderFree | day-05/src/part1.rs:71-84 | the cover does not depend on the order of the input pairs |
| Day05Part2.SameTreeForAnyOrder | day-05/src/part1.rs:71-84 | any order of the same pairs builds the same set, with the same total length |
| Day05Part2.InsertingTwiceIsOnce | day-05/src/part1.rs:71-84 | inserting a pair a second time changes nothing |
| Day05Part2.ProcessBTreeSet | day-05/src/part2.rs:14-21 | for well-formed pairs the result is the number of ids covered |
| Day05Examples.FreshTreeCoversInput | day-05/src/part2.rs:91-115 | the test's coalesced set covers exactly its pairs |
| Day05Examples.FreshTreeTotal | day-05/src/part2.rs:91-115 | that set holds 23 ids |
| Day05Examples.SampleTreeCoversInput | day-05/src/part1.rs:140-151 | the sample's coalesced set covers exactly its pairs |
| Day05Examples.SampleQueries | day-05/src/part1.rs:140-151 | 3 of the sample's six query ids are covered |
| Day05Examples.MultiAbsorbOutcome | day-05/src/part1.rs:248-260 | the scan's contract alone forces `[11,15]` to become `[5,20]`, absorbing `[5,10]` and `[15,20]` |
| Day05Examples.MultiTouching | day-05/src/part1.rs:248-260 | exactly those two stored ranges touch `[5,20]` |
| Day05Examples.MultiTreeBuilt | day-05/src/part1.rs:248-260 | the test's set, built by insertion, is the expected coalesced set |
| Day05Examples.MultiTreeIsTree | day-05/src/part1.rs:248-260 | that set is sorted and holds the four ranges |
| Day05Examples.MultiTreeCoalesced | day-05/src/part1.rs:248-260 | that set is coalesced |
| Day05Examples.SearchQueries | day-05/src/part1.rs:180-200 | 2 of the test's three values are covered |
| Day06Part2.ProductAppend | day-06/src/part2.rs:15-19 | the product splits over concatenation |
| Day06Part2.SumAppend | day-06/src/part2.rs:31-33 | the sum splits over concatenation |
| Day06Part2.ProductZero | day-06/src/part2.rs:15-19 | a product is 0 exactly when a factor is |
| Day06Part2.SumBounds | day-06/src/part2.rs:31-33 | every term is at most the sum |
| Day06Part2.Solve | day-06/src/part2.rs:15-33 | a multiplication problem gives the product of its numbers, an addition problem their sum |
| Day06Part2.ColumnValues | day-06/src/part2.rs:62-64 | a column's numbers read exactly when each cell exists and parses, in row order; otherwise the error is the first bad cell |
| Day06Part2.ColumnMeaning | day-06/src/part2.rs:62-73 | a column is solved exactly when its numbers parse and its operator is `*` or `+`, giving their product or sum |
| Day06Part2.Solutions | day-06/src/part2.rs:59-75 | one solution per column of the first line |
| Day06Part2.SolveColumn | day-06/src/part2.rs:62-70 | solving one column gives exactly that column's specified result: its product or sum, or the first panic it hits |
| Day06Part2.FailedColumn | day-06/src/part2.rs:61-73 | a column that panics after solved ones makes the sheet unsolvable and is the first failing column |
| Day06Part2.SolvedNext | day-06/src/part2.rs:72 | pushing the next column's value extends the solved prefix |
| Day06Part2.SolvedColumns | day-06/src/part2.rs:59-75 | one solved value per column, in order, is exactly the sheet's solutions |
| Day06Part2.SolveProblems | day-06/src/part2.rs:59-75 | a result exactly when every column can be solved, one solution per column in order; an empty sheet is an error; otherwise the error is the first failing column's |
| Day06Part2.Process | day-06/src/part2.rs:77-83 | a result exactly when every column can be solved, and it is the sum of the solutions |
| Day06Examples.Sheet2First | day-06/src/part2.rs:59-75 | a `*` column of 3 and 5 solves to 15 |
| Day06Examples.Sheet2Second | day-06/src/part2.rs:59-75 | a `+` column of 4 and 6 solves to 10 |
| Day07Part1.PewCell | day-07/src/part1.rs:47-58 | one cell keeps the row's length and only adds beams; it counts 1 only for a splitter under a beam |
| Day07Part1.PewFrom | day-07/src/part1.rs:45-61 | the rest of a row keeps the row's length, and the count only grows |
| Day07Part1.HitsInMonotone | day-07/src/part1.rs:45-61 | turning cells into beam never adds splitters under beams |
| Day07Part1.PewOnlyAddsBeams | day-07/src/part1.rs:45-61 | a row pass only turns cells into beam, and counts at most the splitters under beams |
| Day07Part1.Partial | day-07/src/part1.rs:45-61 | the row partway through the pass keeps its length |
| Day07Part1.PartialStep | day-07/src/part1.rs:45-61 | with no two splitters side by side, each cell's step takes the row to the next partial row |
| Day07Part1.PartialRun | day-07/src/part1.rs:45-61 | with no two splitters side by side, the rest of the pass reaches the closed form, or the edge panic |
| Day07Part1.PewClosedForm | day-07/src/part1.rs:43-62 | with no two splitters side by side, a row pass lights the cells below beams and beside hit splitters and counts the splitters under beams, unless a hit splitter sits at an edge |
| Day07Part1.PewRowsFrom | day-07/src/part1.rs:34-41 | passing the remaining rows keeps the number of rows |
| Day07Part1.PewRowsKeepsAbove | day-07/src/part1.rs:34-41 | rows above the current one are left unchanged |
| Day07Part1.LitSplittersFrame | day-07/src/part1.rs:34-41 | the splitter count depends only on the rows it reads |
| Day07Part1.SameSplittersSameHits | day-07/src/part1.rs:45-61 | rows with the same splitters have the same splitters under beams |
| Day07Part1.PewPewCountsLitSplitters | day-07/src/part1.rs:34-41 | with no two splitters side by side, the total is the number of splitters that end up under a beam |
| Day07Part1.AirSpace.constructor | day-07/src/part1.rs:18-23 | the fields hold the given grid and sizes |
| Day07Part1.AirSpace.InsertBeam | day-07/src/part1.rs:26-32 | the one cell becomes beam, even a splitter, and nothing else changes |
| Day07Part1.AirSpace.Pew | day-07/src/part1.rs:43-62 | the row and the count are the specified row pass, or `None` for the edge panic; other rows and the sizes are unchanged |
| Day07Part1.AirSpace.PewPew | day-07/src/part1.rs:34-41 | the grid and the total are the specified pass over rows 1 to n_row − 1, or `None` for a panic |
| Day07Part1.CellOf | day-07/src/part1.rs:69-75 | `S` is beam, `^` splitter, `.` air, and each only from that character |
| Day07Part1.LastStartIn | day-07/src/part1.rs:69-72 | the position of the last `S` of a line, absent exactly when the line has none |
| Day07Part1.LastStartIsLast | day-07/src/part1.rs:67-76 | the start index is absent exactly when no line has `S`, and otherwise names an `S` after which no line has one |
| Day07Part1.FirstBadIn | day-07/src/part1.rs:74 | absent exactly when every character of the line is a cell; otherwise the first that is not |
| Day07Part1.FirstBadChar | day-07/src/part1.rs:68-76 | absent exactly when every line consists of cells; otherwise the first bad character in reading order |
| Day07Part1.RowOf | day-07/src/part1.rs:68-76 | one cell per character |
| Day07Part1.Cells | day-07/src/part1.rs:68-76 | one row per line |
| Day07Part1.Parse | day-07/src/part1.rs:65-88 | a layout exactly when the text has lines and each consists of cells |
| Day07Part1.ParseBuilds | day-07/src/part1.rs:65-88 | the layout has one row per line with the lines' cells, the first line's width, the line count, and the column of the last `S` (0 when there is none) |
| Day07Part1.ParseFails | day-07/src/part1.rs:65-88 | the failures are no lines at all, or the first character that is not a cell |
| Day07Part1.LastStartStep | day-07/src/part1.rs:69-72 | reading one more character updates the start index as the closure does |
| Day07Part1.FirstBadInAt | day-07/src/part1.rs:74 | the first non-cell character of a line is found where it is |
| Day07Part1.FirstBadCharAt | day-07/src/part1.rs:68-76 | the first bad character of the text is found where it is |
| Day07Part1.ReadLine | day-07/src/part1.rs:68-76 | one line reads exactly when it consists of cells, giving its row and the start index so far; otherwise its first bad character |
| Day07Part1.From | day-07/src/part1.rs:65-88 | the loop builds the specified layout |
| Day07Part1.Process | day-07/src/part1.rs:90-97 | a bad text gives `None`; otherwise the result is the total of the pass over the parsed grid, or `None` for a panic |
| Day07Examples.Pew1Row | day-07/src/part1.rs:121-144 | the first row test's result row and count 1 |
| Day07Examples.Pew2Row | day-07/src/part1.rs:146-169 | the second row test's result row and count 1 |
| Day07Examples.SplitterOverwritten | day-07/src/part1.rs:26-32 | two side-by-side splitters under beams count once: the first overwrites the second with beam |
| Day07Examples.EdgeSplitterPanics | day-07/src/part1.rs:51-54 | a hit splitter in the first or last column panics |
| Day07Examples.ParseLines | day-07/src/part1.rs:65-88 | a text of cell lines parses to their cells and the last `S` |
| Day07Examples.RowCells | day-07/src/part1.rs:68-76 | a line's cells are the expected row |
| Day07Examples.TinyParse | day-07/src/part1.rs:171-187 | the tiny airspace parses with start 1, 3 columns and 2 rows |
| Day07Examples.BiggerStart | day-07/src/part1.rs:189-213 | the bigger airspace starts at column 2 |
| Day07Examples.BiggerCells | day-07/src/part1.rs:189-213 | the bigger airspace's cells |
| Day07Examples.BiggerParse | day-07/src/part1.rs:189-213 | the bigger airspace parses with start 2, 5 columns and 6 rows |
| Text.DigitChar | day-02/src/part2.rs:42 | a digit's character is a digit character of that value |
| Text.DecimalString | day-02/src/part2.rs:42 | `to_string` of a `usize` is a non-empty numeral of its value, without leading zeros |
| Text.DecimalStringLength | day-02/src/part2.rs:42-44 | the numeral gains one character per factor of ten |
| Text.DigitsValueBound | day-03/src/part2.rs:39-44 | an n-digit numeral's value is below 10^n |
| Text.ParseDecimalString | day-02/src/part1.rs:18 | parsing a numeral gives its value when it is within range, else fails |
| Text.ParseNegated | day-01/src/part1.rs:26 | a minus sign and a numeral parse to the negated value when it is within range |
| Text.ParseRejects | day-02/src/part1.rs:18 | empty text, a lone sign, a negative unsigned number and a trailing space do not parse |
| Text.Split | day-02/src/part1.rs:11-13 | `split` gives at least one piece, none holding the separator, and the pieces joined by the separator give back the text |
| Text.SplitCount | day-02/src/part1.rs:11-13 | there is one more piece than separators |
| Text.SplitGlued | day-02/src/part1.rs:11-17 | a text without the separator is one piece, and one before a separator is the first piece |
| Text.SplitAlone | day-02/src/part1.rs:16 | a text without the separator splits into itself alone |
| Text.SplitJoin | day-02/src/part1.rs:11-13 | splitting pieces joined by the separator gives them back |
| Text.JoinCons | day-02/src/part1.rs:11-13 | joining pieces is the first piece, the separator, then the rest joined |
| Text.Lines | day-07/src/part1.rs:68 | no line holds a newline |
| Text.TerminatedIsJoin | day-07/src/part1.rs:68 | lines each ended by a newline are the lines joined by newlines with one more at the end |
| Text.LinesOfTerminated | day-07/src/part1.rs:68 | `lines` of newline-terminated lines without carriage returns gives them back |
| Text.NoCrUnchanged | day-07/src/part1.rs:68 | a line without a carriage return is unchanged by stripping one |
| Text.SplitWhitespace | day-06/src/part2.rs:53 | the words are non-empty, hold no whitespace, and together are the text's non-whitespace characters in order |
| Text.Words | day-06/src/part2.rs:53 | the same, continuing a word already begun |
| Text.WordsRun | day-06/src/part2.rs:53 | non-whitespace characters extend the word being read |
| Text.WordsBlank | day-06/src/part2.rs:53 | whitespace holds no word and ends the word being read |
| Text.WordThenSpace | day-06/src/part2.rs:53 | a word followed by whitespace is read whole |
| Text.WordThenBlank | day-06/src/part2.rs:53 | a word followed only by whitespace is the only word |
| Text.WordsJoinStep | day-06/src/part2.rs:53 | joined words are read one at a time, the first and then the rest |
| Text.WordsJoin | day-06/src/part2.rs:53 | words joined by a whitespace character read back as themselves |
| Text.WordsSkip | day-06/src/part2.rs:53 | leading whitespace is skipped |
| Text.SplitWhitespaceOfWords | day-06/src/part2.rs:53 | words are the maximal non-whitespace runs: non-empty words joined by whitespace, with any whitespace around them, split back into exactly those words |
| RustInt.Rem | day-01/src/part2.rs:42-47 | Rust's `%` on `i32`: the remainder takes the dividend's sign and is smaller than the divisor |
| RustInt.RemCongruent | day-01/src/part1.rs:41-52 | Rust's remainder by 100 is congruent to the number mod 100 |
| RustInt.DivModUnique | day-01/src/part2.rs:42-47 | a quotient and remainder in range are the division's |
| Wrappers.Collect | day-02/src/part1.rs:14-20 | a sequence of results collects exactly when each one is `Ok`, giving their values in order; otherwise the error is one of the results' errors |

## Left out

- Reading files is not modelled. This covers `read_txt`, `read_to_string`, `File::open` and the CSV reader of day 1. Each `process` takes the lines, records or text that were read.
- Day 1: CSV decoding of a record (quoting, trimming) is not modelled. A record is the text of its single field.
- Day 5: `read_txt` (day-05/src/part1.rs:36-55) reads the file and splits it into pairs and query ids in one function. It is not modelled. `ProcessBTreeSet` takes the pairs and the ids.
- Machine integers: `i32`, `i64`, `u32`, `usize` and `isize` are unbounded integers. Overflow of additions and products is not modelled. This covers the day-1 counters, the day-2 and day-6 sums and products, day-3's `i64` arithmetic in `create_digit`, its `u32` exponent, and `pow`. Parsing keeps the limits: an `i32` distance on day 1, and a `usize` of 64 bits elsewhere.
- Negative distances (`L-5` parses on day 1) are not modelled as behaviour.
  - Day01Part1.ProcessMoves: for negative distances, the contract states only the bounds of the count and the dial's residue.
  - Day01Part2.ProcessMoves: for negative distances, the contract states only the dial's residue. The same holds for `ProcessMovesCorrected`, `Process` and `ProcessCorrected`.
- `println!` is left out: day-01/src/part2.rs:68, and the debug grid and round numbers of day 4 part 2. Tracing attributes and `anyhow` are left out too.
- Day04Part2.FindCoordsAccessible: the debug grid (day-04/src/part2.rs:46-63) is not modelled. It is allocated transposed, `n_cols - 2` rows of `n_rows - 2`. So its writes panic on some non-square grids, while the model returns the coordinates.
- Day04Part2.FindCoordsAccessible requires at least 2 rows and 2 columns, as does RemoveAllTp. The source's `n_rows - 2` underflows otherwise. `buffered_grid` always gives at least 3 of each.
- Day04Part1.FindNAccessible requires a grid whose interior cells all have their eight neighbours. Its callers pass the padded grid.
- Day04Part1.Process and Day04Part2.Process pad with `BufferedGridCorrected`, not the swapped allocation. See Findings.
- Day03Part2.FindHighestSet requires `n <= |vals|`. The subtraction at day-03/src/part2.rs:26 underflows otherwise. `SumJoltage` and `Process` return a `ShortLine` error for such a line.
- Day03Part2.GreedyIsLargestNumber: maximality is proved for digits 1 to 9 only, and GreedyIsSubsequence and GreedyIsLexLargest for positive digits only. With a zero digit, the index does not advance past a window of zeros, so the subsequence statement is not made.
- Day02Part2.SplitString requires a chunk size of at least 1 that divides the numeral's length. The source panics otherwise, and `is_valid_id` calls it only with such sizes.
- Day05Part1.SearchBTreeSet requires a sorted set, as every `BTreeSet` is.
- Day05Part1.ProcessBTreeSet: its count is stated for well-formed pairs (`min <= max`) only. The same holds for Day05Part1.ToBTreeSet's cover and Day05Part2.ProcessBTreeSet.
- Day07Part1.AirSpace.Pew requires `1 <= rowIndex < |grid|`. Row 0 underflows `row_index - 1`, and its only caller, `pew_pew`, stays inside the grid. After a panic (`None`), the contract does not say what the grid holds.
- Day07Part1.AirSpace.PewPew requires `n_row <= |grid|`, which `From` always provides.
- Day07Part1.PewPewCountsLitSplitters: stated only for rows with no two splitters side by side. For other rows, `SplitterOverwritten` shows the count can be smaller.
- Day 6: the `Problem` trait and its two structs are one datatype with two constructors. Their `create` constructors are not modelled separately.
- Tests that read input files, and the answers they assert, are not modelled.
- `main.rs` files, `daily-template` and `day-03/src/part1.rs` are not part of this model.

## Findings

| source | as written | input that shows it | evidently intended | confidence | as-written member | corrected member |
|---|---|---|---|---|---|---|
| day-01/src/part2.rs:42-67 | a move that starts on 0 with a distance that is a multiple of 100 counts its last click twice: once among the `distance / 100` full rotations, and again by the landing check at line 67 | moves `[R50, R100]` count 3 | 2: every click landing on 0 counted once | not executed | Day01Part2.ProcessMoves, Day01Part2.StepAsWritten | Day01Part2.ProcessMovesCorrected, Day01Part2.StepCorrected, Day01Part2.ProcessCorrected |
| day-04/src/part1.rs:18 | `buffered_grid` allocates `n_cols + 2` rows of `n_rows + 2` cells, swapping rows and columns | the one-row grid `@@` comes back as 4 rows of 3 cells reported as 3×4; three rows `@`,`@`,`@` panic | `n_rows + 2` rows of `n_cols + 2` cells | not executed | Day04Part1.BufferedGrid, Day04Part1.SwappedAllocation | Day04Part1.BufferedGridCorrected, Day04Part1.PaddedFrame |
