/**
 * Day 1, part 1 (day-01/src/part1.rs): a dial numbered 0 to 99 starts at
 * 50 and is turned left or right by each move; the answer counts the moves
 * after which it reads 0. Also the decoding of the records `L68`, `R48`, …
 * that the moves come from. Part 2 reuses the move type and the decoding,
 * which the source repeats verbatim.
 */
module Day01Part1 {
  import opened Wrappers
  import opened Text
  import opened RustInt

  datatype Direction = Left | Right

  /** A move; `distance` is an `i32`, as parsed. */
  datatype Move = Move(direction: Direction, distance: int)

  /** Why the record closure in `process` panics. */
  datatype RecordError =
    | EmptyRecord        // `split_at(1)` on an empty record
    | InvalidDirection   // first character neither `L` nor `R`
    | InvalidDistance    // the rest does not parse as an `i32`

  // ---------------------------------------------------------------------------
  // Decoding the records.

  /** The record closure of `process`: the first character is the direction, the rest the distance. */
  function ParseRecord(record: string): (r: Result<Move, RecordError>)
    ensures r.Ok? ==> I32_MIN <= r.value.distance <= I32_MAX
    ensures r.Ok? ==> |record| >= 1 && record[0] == (if r.value.direction == Left then 'L' else 'R')
  {
    if |record| < 1 then Err(EmptyRecord)
    else
      var direction := if record[0] == 'L' then Some(Left) else if record[0] == 'R' then Some(Right) else None;
      if direction.None? then Err(InvalidDirection)
      else
        match ParseSigned(record[1..], I32_MIN, I32_MAX)
        case None => Err(InvalidDistance)
        case Some(d) => Ok(Move(direction.value, d))
  }

  /** How a move is written in the input: `L` or `R`, then the distance in decimal. */
  function Spelled(m: Move): string {
    [if m.direction == Left then 'L' else 'R']
    + (if m.distance < 0 then "-" else "")
    + DecimalString(if m.distance < 0 then -m.distance else m.distance)
  }

  /** Decoding a record reads back the move it spells, for every `i32` distance. */
  lemma ParseSpelled(m: Move)
    requires I32_MIN <= m.distance <= I32_MAX
    ensures ParseRecord(Spelled(m)) == Ok(m)
  {
    var s := Spelled(m);
    if m.distance < 0 {
      assert s[1..] == "-" + DecimalString(-m.distance);
      ParseNegated(-m.distance, I32_MIN, I32_MAX);
    } else {
      var digits := DecimalString(m.distance);
      assert s[1..] == digits;
      assert digits[0] != '-' && digits[0] != '+';
    }
  }

  /** The records that panic. */
  lemma ParseRecordErrors()
    ensures ParseRecord("") == Err(EmptyRecord)
    ensures ParseRecord("U5") == Err(InvalidDirection)
    ensures ParseRecord("L") == Err(InvalidDistance)
    ensures ParseRecord("R2147483648") == Err(InvalidDistance)
  {
    assert "L"[1..] == [];
    var big := "R2147483648"[1..];
    assert big == "2147483648";
    TooBig(big);
  }

  /** One more digit after a numeral multiplies its value by ten and adds the digit. */
  lemma DigitAppended(s: string, c: char, v: nat)
    requires AllDigits(s) && IsDigit(c) && DigitsValue(s) == v
    ensures AllDigits(s + [c]) && DigitsValue(s + [c]) == 10 * v + DigitValue(c)
  {
    assert (s + [c])[..|s|] == s;
  }

  lemma TooBig(big: string)
    requires big == "2147483648"
    ensures AllDigits(big) && DigitsValue(big) == 2147483648
  {
    var s1 := "2";
    assert DigitsValue(s1) == 2 by { assert s1[..0] == ""; }
    var s2 := s1 + ['1'];
    DigitAppended(s1, '1', 2);
    var s3 := s2 + ['4'];
    DigitAppended(s2, '4', 21);
    var s4 := s3 + ['7'];
    DigitAppended(s3, '7', 214);
    var s5 := s4 + ['4'];
    DigitAppended(s4, '4', 2147);
    var s6 := s5 + ['8'];
    DigitAppended(s5, '8', 21474);
    var s7 := s6 + ['3'];
    DigitAppended(s6, '3', 214748);
    var s8 := s7 + ['6'];
    DigitAppended(s7, '6', 2147483);
    var s9 := s8 + ['4'];
    DigitAppended(s8, '4', 21474836);
    DigitAppended(s9, '8', 214748364);
    assert s9 + ['8'] == big;
  }

  /**
   * `collect::<Vec<Move>>()` over the records: every record decoded in
   * order, or the error of the first record that does not decode.
   */
  function ParseRecords(records: seq<string>): (r: Result<seq<Move>, RecordError>)
    ensures r.Ok? <==> forall i :: 0 <= i < |records| ==> ParseRecord(records[i]).Ok?
    ensures r.Ok? ==> |r.value| == |records| && forall i :: 0 <= i < |records| ==> ParseRecord(records[i]) == Ok(r.value[i])
    ensures r.Err? ==> exists i :: 0 <= i < |records| && ParseRecord(records[i]) == Err(r.error)
                         && forall k :: 0 <= k < i ==> ParseRecord(records[k]).Ok?
  {
    var rs := seq(|records|, i requires 0 <= i < |records| => ParseRecord(records[i]));
    assert forall i :: 0 <= i < |records| ==> rs[i] == ParseRecord(records[i]);
    Collect(rs)
  }

  // ---------------------------------------------------------------------------
  // The dial.

  const START: int := 50

  /** The signed turn: right counts up, left counts down. */
  function Signed(m: Move): int {
    if m.direction == Right then m.distance else -m.distance
  }

  function SignedSum(moves: seq<Move>): int {
    if moves == [] then 0 else SignedSum(moves[..|moves| - 1]) + Signed(moves[|moves| - 1])
  }

  predicate NonNegative(moves: seq<Move>) {
    forall i :: 0 <= i < |moves| ==> moves[i].distance >= 0
  }

  /** The moves before a non-negative one are non-negative too. */
  lemma NonNegativePrefix(moves: seq<Move>, i: int)
    requires 0 <= i < |moves| && NonNegative(moves[..i + 1])
    ensures NonNegative(moves[..i]) && moves[i].distance >= 0
  {
    assert forall k :: 0 <= k < i ==> moves[..i][k] == moves[..i + 1][k];
    assert moves[..i + 1][i] == moves[i];
  }

  /** Where a dial of 100 positions points after one move: plain arithmetic modulo 100. */
  function Turn(dial: int, m: Move): int {
    (dial + Signed(m)) % 100
  }

  /** Where the dial points after all the moves, one at a time from 50. */
  function Dial(moves: seq<Move>): int {
    if moves == [] then START else Turn(Dial(moves[..|moves| - 1]), moves[|moves| - 1])
  }

  /** How many of the moves leave the dial at 0. */
  function Landings(moves: seq<Move>): nat {
    if moves == [] then 0
    else Landings(moves[..|moves| - 1]) + (if Dial(moves) == 0 then 1 else 0)
  }

  /** The dial's position is the start plus the signed distances, modulo 100. */
  lemma {:induction false} DialIsSum(moves: seq<Move>)
    ensures Dial(moves) == (START + SignedSum(moves)) % 100
    ensures 0 <= Dial(moves) < 100
  {
    if moves != [] {
      var p := moves[..|moves| - 1];
      DialIsSum(p);
      ModAdd(START + SignedSum(p), Signed(moves[|moves| - 1]));
    }
  }

  lemma ModAdd(a: int, b: int)
    ensures (a % 100 + b) % 100 == (a + b) % 100
  {
    var q := a / 100;
    assert a == 100 * q + a % 100;
    assert a + b == (a % 100 + b) + 100 * q;
  }

  lemma {:induction false} LandingsAtMostMoves(moves: seq<Move>)
    ensures Landings(moves) <= |moves|
  {
    if moves != [] {
      LandingsAtMostMoves(moves[..|moves| - 1]);
    }
  }

  /**
   * `process_moves`: `dial` and `n_zeros` updated move by move. For the
   * non-negative distances of the input the dial stays on 0..=99, follows
   * arithmetic modulo 100, and `n_zeros` counts the landings on 0. For any
   * distances the dial agrees with the sum modulo 100.
   */
  method ProcessMoves(moves: seq<Move>) returns (nZeros: int, dial: int)
    ensures 0 <= nZeros <= |moves|
    ensures dial % 100 == (START + SignedSum(moves)) % 100
    ensures NonNegative(moves) ==> 0 <= dial <= 99 && dial == Dial(moves) && nZeros == Landings(moves)
  {
    dial := START;
    nZeros := 0;
    var i := 0;
    while i < |moves|
      invariant 0 <= i <= |moves|
      invariant 0 <= nZeros <= i
      invariant dial % 100 == (START + SignedSum(moves[..i])) % 100
      invariant NonNegative(moves[..i]) ==> dial == Dial(moves[..i]) && nZeros == Landings(moves[..i])
    {
      var m := moves[i];
      ghost var before := dial;
      assert moves[..i + 1][..i] == moves[..i];
      match m.direction {
        case Left =>
          dial := dial - Rem(m.distance, 100);
          if dial < 0 {
            dial := dial + 100;
          }
        case Right =>
          dial := dial + Rem(m.distance, 100);
          if dial > 99 {
            dial := dial - 100;
          }
      }
      RemCongruent(m.distance);
      ModAdd(before, Signed(m));
      ModAdd(START + SignedSum(moves[..i]), Signed(m));
      StepCongruent(before, dial, m);
      if NonNegative(moves[..i + 1]) {
        NonNegativePrefix(moves, i);
        DialIsSum(moves[..i]);
      }
      if dial == 0 {
        nZeros := nZeros + 1;
      }
      i := i + 1;
    }
    assert moves[..i] == moves;
  }

  /** One move of `process_moves` keeps the dial congruent to the arithmetic turn. */
  lemma StepCongruent(before: int, after: int, m: Move)
    requires m.direction == Left ==> after == before - Rem(m.distance, 100) || after == before - Rem(m.distance, 100) + 100
    requires m.direction == Right ==> after == before + Rem(m.distance, 100) || after == before + Rem(m.distance, 100) - 100
    ensures after % 100 == (before + Signed(m)) % 100
    ensures m.distance >= 0 && 0 <= before <= 99 && 0 <= after <= 99 ==> after == Turn(before, m)
  {
    if m.direction == Left {
      LeftCongruent(before, after, m.distance);
    } else {
      RightCongruent(before, after, m.distance);
    }
    if 0 <= after <= 99 {
      assert after % 100 == after;
    }
  }

  /** Turning left by the remainder, with or without the wrap, is turning left by the distance mod 100. */
  lemma LeftCongruent(before: int, after: int, d: int)
    requires after == before - Rem(d, 100) || after == before - Rem(d, 100) + 100
    ensures after % 100 == (before - d) % 100
  {
    RemCongruent(d);
    ModSub(before, Rem(d, 100), d);
  }

  /** Turning right by the remainder, with or without the wrap, is turning right by the distance mod 100. */
  lemma RightCongruent(before: int, after: int, d: int)
    requires after == before + Rem(d, 100) || after == before + Rem(d, 100) - 100
    ensures after % 100 == (before + d) % 100
  {
    var r := Rem(d, 100);
    RemCongruent(d);
    NegCongruent(r, d);
    ModSub(before, -r, -d);
    assert before - -r == before + r && before - -d == before + d;
  }

  lemma NegCongruent(x: int, y: int)
    requires x % 100 == y % 100
    ensures (-x) % 100 == (-y) % 100
  {
    var qx, qy := x / 100, y / 100;
    assert x == 100 * qx + x % 100;
    assert y == 100 * qy + y % 100;
    assert -x == -y + 100 * (qy - qx);
  }

  lemma ModSub(a: int, x: int, y: int)
    requires x % 100 == y % 100
    ensures (a - x) % 100 == (a - y) % 100
    ensures (a - x + 100) % 100 == (a - y) % 100
    ensures (a - x - 100) % 100 == (a - y) % 100
  {
    var qx, qy := x / 100, y / 100;
    assert x == 100 * qx + x % 100;
    assert y == 100 * qy + y % 100;
    assert a - x == a - y + 100 * (qy - qx);
  }

  /**
   * `process` without the file: decode every record, then run the moves.
   * A record that does not decode is the panic, reported as its error.
   */
  method Process(records: seq<string>) returns (r: Result<(int, int), RecordError>)
    ensures r.Ok? <==> ParseRecords(records).Ok?
    ensures r.Err? ==> r.error == ParseRecords(records).error
    ensures r.Ok? && NonNegative(ParseRecords(records).value) ==>
              r.value == (Landings(ParseRecords(records).value), Dial(ParseRecords(records).value))
  {
    match ParseRecords(records) {
      case Err(e) =>
        r := Err(e);
      case Ok(moves) =>
        var nZeros, dial := ProcessMoves(moves);
        r := Ok((nZeros, dial));
    }
  }

  // ---------------------------------------------------------------------------
  // The single-move cases of the tests.

  lemma OneMove(m: Move)
    ensures Dial([m]) == Turn(START, m)
    ensures Landings([m]) == if Turn(START, m) == 0 then 1 else 0
  {
    assert [m][..0] == [];
  }

  /** part1.rs:71-124: R49 and L51 stop at 99, R50 and L50 land on 0, R149 wraps round to 99. */
  method SingleMoveExamples() {
    var m := Move(Right, 49);
    OneMove(m);
    var z, d := ProcessMoves([m]);
    assert z == 0 && d == 99;
    m := Move(Right, 50);
    OneMove(m);
    z, d := ProcessMoves([m]);
    assert z == 1 && d == 0;
    m := Move(Right, 149);
    OneMove(m);
    z, d := ProcessMoves([m]);
    assert z == 0 && d == 99;
    m := Move(Left, 50);
    OneMove(m);
    z, d := ProcessMoves([m]);
    assert z == 1 && d == 0;
    m := Move(Left, 51);
    OneMove(m);
    z, d := ProcessMoves([m]);
    assert z == 0 && d == 99;
  }
}
