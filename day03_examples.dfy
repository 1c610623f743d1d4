/** The cases of day 3's tests (day-03/src/part2.rs:78-135). */
module Day03Examples {
  import opened Wrappers
  import opened Day03Part2

  lemma ProcessLineExample(s: string)
    requires s == "0123456789"
    ensures ProcessLine(s) == Ok([0, 1, 2, 3, 4, 5, 6, 7, 8, 9])
  {
    assert forall i :: 0 <= i < |s| ==> s[i] >= '0' && s[i] as int - 0x30 == i;
    var r := ProcessLine(s);
    assert r.Ok?;
    assert r.value == [0, 1, 2, 3, 4, 5, 6, 7, 8, 9];
  }

  lemma CreateDigitExample()
    ensures CreateDigit([9, 5, 1, 8]) == 9518
  {
  }

  lemma PairLast(v: seq<nat>)
    requires v == [0, 1, 2, 3]
    ensures Greedy(v, 2, 0, 0) == [2, 3]
  {
    assert Scan(v, 0, 1) == (0, 0);
    assert Scan(v, 0, 2) == (1, 2);
    assert Scan(v, 0, 3) == (2, 3);
    assert Scan(v, 3, 4) == (3, 4);
    assert Greedy(v, 2, 1, 3) == [3];
    assert Greedy(v, 2, 0, 0) == [2, 3];
  }

  lemma PairFirst(v: seq<nat>)
    requires v == [9, 8, 1, 2]
    ensures Greedy(v, 2, 0, 0) == [9, 8]
  {
    assert Scan(v, 0, 1) == (9, 1);
    assert Scan(v, 0, 2) == (9, 1);
    assert Scan(v, 0, 3) == (9, 1);
    assert Scan(v, 1, 2) == (8, 2);
    assert Scan(v, 1, 3) == (8, 2);
    assert Scan(v, 1, 4) == (8, 2);
    assert Greedy(v, 2, 1, 1) == [8];
    assert Greedy(v, 2, 0, 0) == [9, 8];
  }

  lemma PairSameDigit(v: seq<nat>)
    requires v == [8, 9, 9, 1]
    ensures Greedy(v, 2, 0, 0) == [9, 9]
  {
    assert Scan(v, 0, 1) == (8, 1);
    assert Scan(v, 0, 2) == (9, 2);
    assert Scan(v, 0, 3) == (9, 2);
    assert Scan(v, 2, 3) == (9, 3);
    assert Scan(v, 2, 4) == (9, 3);
    assert Greedy(v, 2, 1, 2) == [9];
    assert Greedy(v, 2, 0, 0) == [9, 9];
  }

  lemma PairSecond(v: seq<nat>)
    requires v == [8, 9, 4, 5, 8]
    ensures Greedy(v, 2, 0, 0) == [9, 8]
  {
    assert Scan(v, 0, 1) == (8, 1);
    assert Scan(v, 0, 2) == (9, 2);
    assert Scan(v, 0, 3) == (9, 2);
    assert Scan(v, 0, 4) == (9, 2);
    assert Scan(v, 2, 3) == (4, 3);
    assert Scan(v, 2, 4) == (5, 4);
    assert Scan(v, 2, 5) == (8, 5);
    assert Greedy(v, 2, 1, 2) == [8];
    assert Greedy(v, 2, 0, 0) == [9, 8];
  }

  lemma Trio(v: seq<nat>)
    requires v == [8, 9, 4, 5, 8]
    ensures Greedy(v, 3, 0, 0) == [9, 5, 8]
  {
    assert Scan(v, 0, 1) == (8, 1);
    assert Scan(v, 0, 2) == (9, 2);
    assert Scan(v, 0, 3) == (9, 2);
    assert Scan(v, 2, 3) == (4, 3);
    assert Scan(v, 2, 4) == (5, 4);
    assert Scan(v, 4, 5) == (8, 5);
    assert Greedy(v, 3, 2, 4) == [8];
    assert Greedy(v, 3, 1, 2) == [5, 8];
    assert Greedy(v, 3, 0, 0) == [9, 5, 8];
  }

  lemma Quad(v: seq<nat>)
    requires v == [8, 9, 4, 1, 1, 5, 1, 1, 1, 8]
    ensures Greedy(v, 4, 0, 0) == [9, 5, 1, 8]
  {
    assert Scan(v, 0, 1) == (8, 1);
    assert Scan(v, 0, 2) == (9, 2);
    assert Scan(v, 0, 3) == (9, 2);
    assert Scan(v, 0, 4) == (9, 2);
    assert Scan(v, 0, 5) == (9, 2);
    assert Scan(v, 0, 6) == (9, 2);
    assert Scan(v, 0, 7) == (9, 2);
    assert Scan(v, 2, 3) == (4, 3);
    assert Scan(v, 2, 4) == (4, 3);
    assert Scan(v, 2, 5) == (4, 3);
    assert Scan(v, 2, 6) == (5, 6);
    assert Scan(v, 2, 7) == (5, 6);
    assert Scan(v, 2, 8) == (5, 6);
    assert Scan(v, 6, 7) == (1, 7);
    assert Scan(v, 6, 8) == (1, 7);
    assert Scan(v, 6, 9) == (1, 7);
    assert Scan(v, 7, 8) == (1, 8);
    assert Scan(v, 7, 9) == (1, 8);
    assert Scan(v, 7, 10) == (8, 10);
    assert Greedy(v, 4, 3, 7) == [8];
    assert Greedy(v, 4, 2, 6) == [1, 8];
    assert Greedy(v, 4, 1, 2) == [5, 1, 8];
    assert Greedy(v, 4, 0, 0) == [9, 5, 1, 8];
  }

  /** The cases of the `find_highest_set` tests. */
  method FindHighestSetExamples() {
    var r := FindHighestSet([0, 1, 2, 3], 2);
    PairLast([0, 1, 2, 3]);
    assert r == [2, 3];
    r := FindHighestSet([9, 8, 1, 2], 2);
    PairFirst([9, 8, 1, 2]);
    assert r == [9, 8];
    r := FindHighestSet([8, 9, 9, 1], 2);
    PairSameDigit([8, 9, 9, 1]);
    assert r == [9, 9];
    r := FindHighestSet([8, 9, 4, 5, 8], 2);
    PairSecond([8, 9, 4, 5, 8]);
    assert r == [9, 8];
    r := FindHighestSet([8, 9, 4, 5, 8], 3);
    Trio([8, 9, 4, 5, 8]);
    assert r == [9, 5, 8];
    r := FindHighestSet([8, 9, 4, 1, 1, 5, 1, 1, 1, 8], 4);
    Quad([8, 9, 4, 1, 1, 5, 1, 1, 1, 8]);
    assert r == [9, 5, 1, 8];
  }
}
