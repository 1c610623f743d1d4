/**
 * Day 1, part 2 (day-01/src/part2.rs): the same dial, now counting every
 * click at which it points at 0, during a move or at its end. The source's
 * `process_moves` is modelled as written and as corrected: as written it
 * counts one click too many for each move that starts on 0 and turns a
 * whole number of rotations (see `ProcessMoves` and `OvercountExample`).
 */
module Day01Part2 {
  import opened Wrappers
  import opened RustInt
  import opened Day01Part1

  // ---------------------------------------------------------------------------
  // The reference: the dial advanced one click at a time.

  /** How many of the first `clicks` clicks of a turn from `dial` leave it pointing at 0. */
  function ZeroClicks(dial: int, direction: Direction, clicks: int): nat
    decreases clicks
  {
    if clicks <= 0 then 0
    else
      var at := if direction == Right then dial + clicks else dial - clicks;
      ZeroClicks(dial, direction, clicks - 1) + (if at % 100 == 0 then 1 else 0)
  }

  /** The clicks at 0 over all the moves, each move starting where the previous one stopped. */
  function ClicksAtZero(moves: seq<Move>): nat {
    if moves == [] then 0
    else
      var p := moves[..|moves| - 1];
      var m := moves[|moves| - 1];
      ClicksAtZero(p) + ZeroClicks(Dial(p), m.direction, m.distance)
  }

  /** The moves that start on 0 and turn a whole number of rotations, zero included. */
  function RestartsOnZero(moves: seq<Move>): nat {
    if moves == [] then 0
    else
      var p := moves[..|moves| - 1];
      RestartsOnZero(p) + (if Dial(p) == 0 && moves[|moves| - 1].distance % 100 == 0 then 1 else 0)
  }

  lemma DivStep(n: int)
    requires n >= 1
    ensures n / 100 == (n - 1) / 100 + (if n % 100 == 0 then 1 else 0)
  {
    var q, r := (n - 1) / 100, (n - 1) % 100;
    assert n - 1 == 100 * q + r;
    if r == 99 {
      assert n == 100 * (q + 1);
    } else {
      assert n == 100 * q + (r + 1);
    }
  }

  /** Turning right from `dial` passes 0 once per hundred reached. */
  lemma {:induction false} RightClicks(dial: int, clicks: nat)
    requires 0 <= dial <= 99
    ensures ZeroClicks(dial, Right, clicks) == (dial + clicks) / 100
  {
    if clicks > 0 {
      RightClicks(dial, clicks - 1);
      DivStep(dial + clicks);
    }
  }

  /** Turning left from `dial` is turning right from its mirror image `(100 - dial) % 100`. */
  lemma {:induction false} LeftClicks(dial: int, clicks: nat)
    requires 0 <= dial <= 99
    ensures ZeroClicks(dial, Left, clicks) == ((100 - dial) % 100 + clicks) / 100
  {
    if clicks > 0 {
      LeftClicks(dial, clicks - 1);
      var t := (100 - dial) % 100;
      assert (dial - clicks) % 100 == 0 <==> (t + clicks) % 100 == 0 by {
        MirrorZero(dial, clicks);
      }
      DivStep(t + clicks);
    }
  }

  lemma MirrorZero(dial: int, clicks: int)
    requires 0 <= dial <= 99
    ensures (dial - clicks) % 100 == 0 <==> ((100 - dial) % 100 + clicks) % 100 == 0
  {
    var x := dial - clicks;
    NegMod(x);
    if dial == 0 {
      DivModUnique(100, 100, 1, 0);
      assert -x == clicks;
    } else {
      DivModUnique(100 - dial, 100, 0, 100 - dial);
      assert (100 - dial) % 100 + clicks == -x + 100;
      DivModUnique(-x + 100, 100, (-x) / 100 + 1, (-x) % 100);
    }
  }

  lemma NegMod(x: int)
    ensures x % 100 == 0 <==> (-x) % 100 == 0
  {
    var q, r := x / 100, x % 100;
    if r == 0 {
      DivModUnique(-x, 100, -q, 0);
    } else {
      DivModUnique(-x, 100, -q - 1, 100 - r);
    }
  }

  // ---------------------------------------------------------------------------
  // One move, as the source counts it.

  /**
   * The zeros one move of `process_moves` adds, from a dial on 0..=99 and a
   * non-negative distance: every click at 0, plus one more when the move
   * starts on 0 and its distance is a multiple of 100.
   */
  lemma {:induction false} StepAsWritten(dial: int, m: Move, after: int, added: int)
    requires 0 <= dial <= 99 && m.distance >= 0
    requires var q, r := m.distance / 100, m.distance % 100;
      if m.direction == Left then
        var d := dial - r;
        after == (if d < 0 then d + 100 else d)
        && added == q + (if d < 0 && dial != 0 then 1 else 0) + (if after == 0 then 1 else 0)
      else
        var d := dial + r;
        after == (if d > 99 then d - 100 else d)
        && added == q + (if d > 100 then 1 else 0) + (if after == 0 then 1 else 0)
    ensures after == Turn(dial, m)
    ensures added == ZeroClicks(dial, m.direction, m.distance) + (if dial == 0 && m.distance % 100 == 0 then 1 else 0)
  {
    var q, r := m.distance / 100, m.distance % 100;
    assert m.distance == 100 * q + r;
    if m.direction == Left {
      LeftClicks(dial, m.distance);
      LeftArithmetic(dial, q, r);
    } else {
      RightClicks(dial, m.distance);
      RightArithmetic(dial, q, r);
    }
  }

  lemma LeftArithmetic(dial: int, q: nat, r: int)
    requires 0 <= dial <= 99 && 0 <= r <= 99
    ensures var d := dial - r;
      var after := if d < 0 then d + 100 else d;
      && after == (dial - (100 * q + r)) % 100
      && q + (if d < 0 && dial != 0 then 1 else 0) + (if after == 0 then 1 else 0)
         == ((100 - dial) % 100 + (100 * q + r)) / 100 + (if dial == 0 && r == 0 then 1 else 0)
  {
    var d := dial - r;
    var after := if d < 0 then d + 100 else d;
    var k: int := q + (if d < 0 then 1 else 0);
    assert dial - (100 * q + r) == after - 100 * k;
    if dial == 0 {
      assert (100 - dial) % 100 + (100 * q + r) == 100 * q + r;
    } else {
      assert (100 - dial) % 100 + (100 * q + r) == 100 * q + (100 - dial + r);
      if d < 0 {
        assert 100 * q + (100 - dial + r) == 100 * (q + 1) + (r - dial);
      }
    }
  }

  lemma RightArithmetic(dial: int, q: nat, r: int)
    requires 0 <= dial <= 99 && 0 <= r <= 99
    ensures var d := dial + r;
      var after := if d > 99 then d - 100 else d;
      && after == (dial + (100 * q + r)) % 100
      && q + (if d > 100 then 1 else 0) + (if after == 0 then 1 else 0)
         == (dial + (100 * q + r)) / 100 + (if dial == 0 && r == 0 then 1 else 0)
  {
    var d := dial + r;
    if d > 99 {
      assert dial + (100 * q + r) == 100 * (q + 1) + (d - 100);
    } else {
      assert dial + (100 * q + r) == 100 * q + d;
    }
  }

  /** The same move, counted the way the puzzle intends: the landing on 0 needs a click. */
  lemma {:induction false} StepCorrected(dial: int, m: Move, after: int, added: int)
    requires 0 <= dial <= 99 && m.distance >= 0
    requires var q, r := m.distance / 100, m.distance % 100;
      if m.direction == Left then
        var d := dial - r;
        after == (if d < 0 then d + 100 else d)
        && added == q + (if d < 0 && dial != 0 then 1 else 0) + (if after == 0 && r != 0 then 1 else 0)
      else
        var d := dial + r;
        after == (if d > 99 then d - 100 else d)
        && added == q + (if d > 100 then 1 else 0) + (if after == 0 && r != 0 then 1 else 0)
    ensures after == Turn(dial, m)
    ensures added == ZeroClicks(dial, m.direction, m.distance)
  {
    var r := m.distance % 100;
    var extra := if (if m.direction == Left then dial - r < 0 && dial != 0 else dial + r > 100) then 1 else 0;
    StepAsWritten(dial, m, after, m.distance / 100 + extra + (if after == 0 then 1 else 0));
    if after == 0 && r == 0 {
      assert dial == 0;
    }
  }

  // ---------------------------------------------------------------------------
  // `process_moves`.

  /**
   * `process_moves` as written. The dial moves as in part 1; for the
   * non-negative distances of the input `n_zeros` is the number of clicks
   * at 0 plus the number of moves that start on 0 with a distance divisible
   * by 100.
   */
  method ProcessMoves(moves: seq<Move>) returns (nZeros: int, dial: int)
    ensures dial % 100 == (START + SignedSum(moves)) % 100
    ensures NonNegative(moves) ==> dial == Dial(moves) && nZeros == ClicksAtZero(moves) + RestartsOnZero(moves)
  {
    dial := START;
    nZeros := 0;
    var i := 0;
    while i < |moves|
      invariant 0 <= i <= |moves|
      invariant dial % 100 == (START + SignedSum(moves[..i])) % 100
      invariant NonNegative(moves[..i]) ==> dial == Dial(moves[..i]) && nZeros == ClicksAtZero(moves[..i]) + RestartsOnZero(moves[..i])
    {
      var m := moves[i];
      ghost var before, zerosBefore := dial, nZeros;
      assert moves[..i + 1][..i] == moves[..i];
      match m.direction {
        case Left =>
          var fullRotations := Quot(m.distance, 100);
          nZeros := nZeros + fullRotations;
          var dialWas := dial;
          dial := dial - Rem(m.distance, 100);
          if dial < 0 {
            if dialWas != 0 {
              nZeros := nZeros + 1;
            }
            dial := dial + 100;
          }
        case Right =>
          var fullRotations := Quot(m.distance, 100);
          nZeros := nZeros + fullRotations;
          dial := dial + Rem(m.distance, 100);
          if dial > 100 {
            nZeros := nZeros + 1;
          }
          if dial > 99 {
            dial := dial - 100;
          }
      }
      if dial == 0 {
        nZeros := nZeros + 1;
      }
      RemCongruent(m.distance);
      ModAdd(before, Signed(m));
      ModAdd(START + SignedSum(moves[..i]), Signed(m));
      StepCongruent(before, dial, m);
      if NonNegative(moves[..i + 1]) {
        NonNegativePrefix(moves, i);
        DialIsSum(moves[..i]);
        StepAsWritten(before, m, dial, nZeros - zerosBefore);
      }
      i := i + 1;
    }
    assert moves[..i] == moves;
  }

  /**
   * `process_moves` with the landing on 0 counted only when the move's last
   * clicks reach it: `n_zeros` is exactly the number of clicks at 0.
   */
  method ProcessMovesCorrected(moves: seq<Move>) returns (nZeros: int, dial: int)
    ensures dial % 100 == (START + SignedSum(moves)) % 100
    ensures NonNegative(moves) ==> dial == Dial(moves) && nZeros == ClicksAtZero(moves)
  {
    dial := START;
    nZeros := 0;
    var i := 0;
    while i < |moves|
      invariant 0 <= i <= |moves|
      invariant dial % 100 == (START + SignedSum(moves[..i])) % 100
      invariant NonNegative(moves[..i]) ==> dial == Dial(moves[..i]) && nZeros == ClicksAtZero(moves[..i])
    {
      var m := moves[i];
      ghost var before, zerosBefore := dial, nZeros;
      assert moves[..i + 1][..i] == moves[..i];
      match m.direction {
        case Left =>
          var fullRotations := Quot(m.distance, 100);
          nZeros := nZeros + fullRotations;
          var dialWas := dial;
          dial := dial - Rem(m.distance, 100);
          if dial < 0 {
            if dialWas != 0 {
              nZeros := nZeros + 1;
            }
            dial := dial + 100;
          }
        case Right =>
          var fullRotations := Quot(m.distance, 100);
          nZeros := nZeros + fullRotations;
          dial := dial + Rem(m.distance, 100);
          if dial > 100 {
            nZeros := nZeros + 1;
          }
          if dial > 99 {
            dial := dial - 100;
          }
      }
      if dial == 0 && Rem(m.distance, 100) != 0 {
        nZeros := nZeros + 1;
      }
      RemCongruent(m.distance);
      ModAdd(before, Signed(m));
      ModAdd(START + SignedSum(moves[..i]), Signed(m));
      StepCongruent(before, dial, m);
      if NonNegative(moves[..i + 1]) {
        NonNegativePrefix(moves, i);
        DialIsSum(moves[..i]);
        StepCorrected(before, m, dial, nZeros - zerosBefore);
      }
      i := i + 1;
    }
    assert moves[..i] == moves;
  }

  /**
   * `process` without the file: the records parsed, then counted by
   * `process_moves` as written, so a restart on 0 counts twice.
   */
  method Process(records: seq<string>) returns (r: Result<(int, int), RecordError>)
    ensures r.Ok? <==> ParseRecords(records).Ok?
    ensures r.Err? ==> r.error == ParseRecords(records).error
    ensures r.Ok? && NonNegative(ParseRecords(records).value) ==>
              var moves := ParseRecords(records).value;
              r.value == (ClicksAtZero(moves) + RestartsOnZero(moves), Dial(moves))
  {
    match ParseRecords(records) {
      case Err(e) =>
        r := Err(e);
      case Ok(moves) =>
        var nZeros, dial := ProcessMoves(moves);
        r := Ok((nZeros, dial));
    }
  }

  /** `process` counting with the corrected `process_moves`: every click at 0 once. */
  method ProcessCorrected(records: seq<string>) returns (r: Result<(int, int), RecordError>)
    ensures r.Ok? <==> ParseRecords(records).Ok?
    ensures r.Err? ==> r.error == ParseRecords(records).error
    ensures r.Ok? && NonNegative(ParseRecords(records).value) ==>
              var moves := ParseRecords(records).value;
              r.value == (ClicksAtZero(moves), Dial(moves))
  {
    match ParseRecords(records) {
      case Err(e) =>
        r := Err(e);
      case Ok(moves) =>
        var nZeros, dial := ProcessMovesCorrected(moves);
        r := Ok((nZeros, dial));
    }
  }

  // ---------------------------------------------------------------------------
  // The tests, and the input that shows the overcount.

  /** Appending one non-negative move: its clicks at 0 and whether it restarts on 0. */
  lemma Appended(moves: seq<Move>, m: Move)
    requires m.distance >= 0
    ensures Dial(moves + [m]) == Turn(Dial(moves), m)
    ensures ClicksAtZero(moves + [m]) == ClicksAtZero(moves) +
              if m.direction == Right then (Dial(moves) + m.distance) / 100
              else ((100 - Dial(moves)) % 100 + m.distance) / 100
    ensures RestartsOnZero(moves + [m]) == RestartsOnZero(moves) + if Dial(moves) == 0 && m.distance % 100 == 0 then 1 else 0
  {
    assert (moves + [m])[..|moves|] == moves;
    DialIsSum(moves);
    if m.direction == Right {
      RightClicks(Dial(moves), m.distance);
    } else {
      LeftClicks(Dial(moves), m.distance);
    }
  }

  /** part2.rs:117-247: the single moves from 50 and the (zeros, dial) pairs the tests expect. */
  method SingleMoveExamples() {
    RightMoveExamples();
    LeftMoveExamples();
  }

  /** One non-negative move from 50: where the dial ends and what `process_moves` counts. */
  lemma FromStart(m: Move)
    requires m.distance >= 0
    ensures NonNegative([m]) && Dial([m]) == Turn(START, m)
    ensures ClicksAtZero([m]) + RestartsOnZero([m]) ==
              if m.direction == Right then (START + m.distance) / 100
              else ((100 - START) % 100 + m.distance) / 100
  {
    var none: seq<Move> := [];
    assert Dial(none) == START && ClicksAtZero(none) == 0 && RestartsOnZero(none) == 0;
    Appended(none, m);
    assert none + [m] == [m];
  }

  method RightMoveExamples() {
    FromStart(Move(Right, 49));
    var z49, d49 := ProcessMoves([Move(Right, 49)]);
    assert (z49, d49) == (0, 99);
    FromStart(Move(Right, 51));
    var z51, d51 := ProcessMoves([Move(Right, 51)]);
    assert (z51, d51) == (1, 1);
    FromStart(Move(Right, 151));
    var z151, d151 := ProcessMoves([Move(Right, 151)]);
    assert (z151, d151) == (2, 1);
    FromStart(Move(Right, 50));
    var z50, d50 := ProcessMoves([Move(Right, 50)]);
    assert (z50, d50) == (1, 0);
    FromStart(Move(Right, 150));
    var z150, d150 := ProcessMoves([Move(Right, 150)]);
    assert (z150, d150) == (2, 0);
    FromStart(Move(Right, 149));
    var z149, d149 := ProcessMoves([Move(Right, 149)]);
    assert (z149, d149) == (1, 99);
  }

  method LeftMoveExamples() {
    FromStart(Move(Left, 50));
    var z50, d50 := ProcessMoves([Move(Left, 50)]);
    assert (z50, d50) == (1, 0);
    FromStart(Move(Left, 49));
    var z49, d49 := ProcessMoves([Move(Left, 49)]);
    assert (z49, d49) == (0, 1);
    FromStart(Move(Left, 51));
    var z51, d51 := ProcessMoves([Move(Left, 51)]);
    assert (z51, d51) == (1, 99);
    FromStart(Move(Left, 150));
    var z150, d150 := ProcessMoves([Move(Left, 150)]);
    assert (z150, d150) == (2, 0);
    FromStart(Move(Left, 149));
    var z149, d149 := ProcessMoves([Move(Left, 149)]);
    assert (z149, d149) == (1, 1);
    FromStart(Move(Left, 151));
    var z151, d151 := ProcessMoves([Move(Left, 151)]);
    assert (z151, d151) == (2, 99);
  }

  const Sample: seq<Move> := [
    Move(Left, 68), Move(Left, 30), Move(Right, 48), Move(Left, 5), Move(Right, 60),
    Move(Left, 55), Move(Left, 1), Move(Left, 99), Move(Right, 14), Move(Left, 82)]

  /** One more move of a computation whose dial, clicks at 0 and restarts are known. */
  lemma SampleStep(p: seq<Move>, m: Move, dial: int, clicks: nat, next: int, total: nat)
    requires Dial(p) == dial && ClicksAtZero(p) == clicks && RestartsOnZero(p) == 0
    requires m.distance >= 0 && !(dial == 0 && m.distance % 100 == 0) && Turn(dial, m) == next
    requires total == clicks + if m.direction == Right then (dial + m.distance) / 100
                               else ((100 - dial) % 100 + m.distance) / 100
    ensures Dial(p + [m]) == next && ClicksAtZero(p + [m]) == total && RestartsOnZero(p + [m]) == 0
  {
    Appended(p, m);
  }

  lemma SampleFirstMoves(p: seq<Move>)
    requires p == Sample[..4]
    ensures Dial(p) == 95 && ClicksAtZero(p) == 2 && RestartsOnZero(p) == 0
  {
    var p0: seq<Move> := [];
    var p1 := p0 + [Move(Left, 68)];
    var p2 := p1 + [Move(Left, 30)];
    var p3 := p2 + [Move(Right, 48)];
    SampleStep(p0, Move(Left, 68), 50, 0, 82, 1);
    SampleStep(p1, Move(Left, 30), 82, 1, 52, 1);
    SampleStep(p2, Move(Right, 48), 52, 1, 0, 2);
    SampleStep(p3, Move(Left, 5), 0, 2, 95, 2);
    assert p3 + [Move(Left, 5)] == p;
  }

  lemma SampleMiddleMoves(p: seq<Move>)
    requires |p| == 4 && Dial(p) == 95 && ClicksAtZero(p) == 2 && RestartsOnZero(p) == 0
    ensures var q := p + [Move(Right, 60), Move(Left, 55), Move(Left, 1)];
      Dial(q) == 99 && ClicksAtZero(q) == 4 && RestartsOnZero(q) == 0
  {
    var p1 := p + [Move(Right, 60)];
    var p2 := p1 + [Move(Left, 55)];
    SampleStep(p, Move(Right, 60), 95, 2, 55, 3);
    SampleStep(p1, Move(Left, 55), 55, 3, 0, 4);
    SampleStep(p2, Move(Left, 1), 0, 4, 99, 4);
    assert p2 + [Move(Left, 1)] == p + [Move(Right, 60), Move(Left, 55), Move(Left, 1)];
  }

  lemma SampleLastMove(p: seq<Move>)
    requires Dial(p) == 14 && ClicksAtZero(p) == 5 && RestartsOnZero(p) == 0
    ensures ClicksAtZero(p + [Move(Left, 82)]) == 6 && RestartsOnZero(p + [Move(Left, 82)]) == 0
  {
    SampleStep(p, Move(Left, 82), 14, 5, 32, 6);
  }

  lemma SampleLateMoves(p: seq<Move>)
    requires Dial(p) == 99 && ClicksAtZero(p) == 4 && RestartsOnZero(p) == 0
    ensures var q := p + [Move(Left, 99), Move(Right, 14), Move(Left, 82)];
      ClicksAtZero(q) == 6 && RestartsOnZero(q) == 0
  {
    var p1 := p + [Move(Left, 99)];
    var p2 := p1 + [Move(Right, 14)];
    SampleStep(p, Move(Left, 99), 99, 4, 0, 5);
    SampleStep(p1, Move(Right, 14), 0, 5, 14, 5);
    SampleLastMove(p2);
    assert p2 + [Move(Left, 82)] == p + [Move(Left, 99), Move(Right, 14), Move(Left, 82)];
  }

  lemma SampleCounts(t: seq<Move>)
    requires t == Sample
    ensures ClicksAtZero(t) == 6 && RestartsOnZero(t) == 0
  {
    var p := t[..4];
    SampleFirstMoves(p);
    SampleMiddleMoves(p);
    var q := p + [Move(Right, 60), Move(Left, 55), Move(Left, 1)];
    SampleLateMoves(q);
    assert q + [Move(Left, 99), Move(Right, 14), Move(Left, 82)] == t;
  }

  lemma SampleNonNegative(t: seq<Move>)
    requires t == Sample
    ensures NonNegative(t)
  {
    forall i | 0 <= i < |t|
      ensures t[i].distance >= 0
    {
    }
  }

  /** part2.rs:85-115: the ten sample moves meet 0 six times. */
  method SampleExample() {
    SampleCounts(Sample);
    SampleNonNegative(Sample);
    var z, d := ProcessMoves(Sample);
    assert z == 6;
    var c, _ := ProcessMovesCorrected(Sample);
    assert c == 6;
  }

  /**
   * The overcount: `R50` reaches 0 with its last click, and `R100` then makes
   * one full turn, which meets 0 once, at its end. That is two clicks at 0;
   * the source reports three.
   */
  method OvercountExample() {
    var moves := [Move(Right, 50), Move(Right, 100)];
    Appended([], moves[0]);
    assert [] + [moves[0]] == [moves[0]];
    Appended([moves[0]], moves[1]);
    assert [moves[0]] + [moves[1]] == moves;
    assert ClicksAtZero(moves) == 2;
    var asWritten, _ := ProcessMoves(moves);
    assert asWritten == 3;
    var corrected, _ := ProcessMovesCorrected(moves);
    assert corrected == 2;
  }
}
