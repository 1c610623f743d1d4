/** The examples of day 2 (day-02/src/part1.rs:49-55, day-02/src/part2.rs:100-142). */
module Day02Examples {
  import opened Wrappers
  import opened Text
  import opened Day02Part1
  import opened Day02Part2

  /** The comma-separated elements of the example line. */
  const SampleElements: seq<string> := ["11-22", "95-115", "998-1012", "1188511880-1188511890",
    "222220-222224", "1698522-1698528", "446443-446449", "38593856-38593862", "565653-565659",
    "824824821-824824827", "2121212118-2121212124"]

  /** The example line: its elements with commas between them. */
  const SampleText: string := Join(SampleElements, ',')

  lemma FirstElementsParse(i: nat, es: seq<string>)
    requires i < 4 && es == SampleElements
    ensures ParsePair(es[i]).Ok? && ',' !in es[i]
  {
    if i == 0 { ShortNumeralsParse(es[i], "11", "22"); }
    else if i == 1 { ShortNumeralsParse(es[i], "95", "115"); }
    else if i == 2 { ShortNumeralsParse(es[i], "998", "1012"); }
    else { ShortNumeralsParse(es[i], "1188511880", "1188511890"); }
  }

  lemma MiddleElementsParse(i: nat, es: seq<string>)
    requires 4 <= i < 8 && es == SampleElements
    ensures ParsePair(es[i]).Ok? && ',' !in es[i]
  {
    if i == 4 { ShortNumeralsParse(es[i], "222220", "222224"); }
    else if i == 5 { ShortNumeralsParse(es[i], "1698522", "1698528"); }
    else if i == 6 { ShortNumeralsParse(es[i], "446443", "446449"); }
    else { ShortNumeralsParse(es[i], "38593856", "38593862"); }
  }

  lemma LastElementsParse(i: nat, es: seq<string>)
    requires 8 <= i < 11 && es == SampleElements
    ensures ParsePair(es[i]).Ok? && ',' !in es[i]
  {
    if i == 8 { ShortNumeralsParse(es[i], "565653", "565659"); }
    else if i == 9 { ShortNumeralsParse(es[i], "824824821", "824824827"); }
    else { ShortNumeralsParse(es[i], "2121212118", "2121212124"); }
  }

  /** The example line reads as eleven pairs. */
  lemma SampleParses()
    ensures ProcessInput(SampleText).Ok? && |ProcessInput(SampleText).value| == 11
  {
    forall i | 0 <= i < |SampleElements|
      ensures ParsePair(SampleElements[i]).Ok? && ',' !in SampleElements[i]
    {
      if i < 4 {
        FirstElementsParse(i, SampleElements);
      } else if i < 8 {
        MiddleElementsParse(i, SampleElements);
      } else {
        LastElementsParse(i, SampleElements);
      }
    }
    SplitJoin(SampleElements, ',');
  }

  // ---------------------------------------------------------------------------
  // `split_string`.

  lemma Chunks112233(s: string)
    requires s == "112233"
    ensures ChunkSet(s, 2) == {"11", "22", "33"}
  {
    ChunksCons(s, 2);
    ChunksCons(s[2..], 2);
    ChunksCons(s[4..], 2);
    assert s[..2] == "11" && s[2..][..2] == "22" && s[4..][..2] == "33";
    assert s[2..][2..] == s[4..] && s[4..][2..] == [];
  }

  lemma ChunksOfOneExample(s: string, cs: set<string>)
    requires |s| == 3 && cs == {[s[0]], [s[1]], [s[2]]}
    ensures ChunkSet(s, 1) == cs
  {
    ChunksOfOne(s);
  }

  /** The cases of `test_split_string`. */
  method SplitStringExamples() {
    var c := SplitString("11", 1);
    ChunksOfOne("11");
    assert c == {"1"};
    c := SplitString("112233", 2);
    Chunks112233("112233");
    assert c == {"11", "22", "33"};
    c := SplitString("211", 1);
    ChunksOfOneExample("211", {"1", "2"});
    assert c == {"1", "2"};
    c := SplitString("112", 1);
    ChunksOfOneExample("112", {"1", "2"});
    assert c == {"1", "2"};
  }

  // ---------------------------------------------------------------------------
  // `is_valid_id`.

  /** A numeral none of whose candidate chunk sizes gives a single chunk is not a repetition. */
  lemma Valid(s: string)
    requires s != []
    requires forall k :: 1 <= k <= |s| / 2 && |s| % k == 0 ==> |ChunkSet(s, k)| != 1
    ensures !IsRepetition(s)
  {
    RepetitionIffOneChunk(s);
  }

  lemma Valid12()
    ensures !IsRepetition(DecimalString(12))
  {
    var s := DecimalString(12);
    assert s == "12";
    CharChunk(s, 0);
    CharChunk(s, 1);
    TwoChunks(s, 1, [s[0]], [s[1]]);
    Valid(s);
  }

  lemma Valid101()
    ensures !IsRepetition(DecimalString(101))
  {
    var s := DecimalString(101);
    assert s == "101";
    CharChunk(s, 0);
    CharChunk(s, 1);
    TwoChunks(s, 1, [s[0]], [s[1]]);
    Valid(s);
  }

  lemma Halves1122(s: string)
    requires s == "1122"
    ensures |ChunkSet(s, 2)| != 1
  {
    ChunksCons(s, 2);
    ChunksCons(s[2..], 2);
    assert s[..2] == "11" && s[2..][..2] == "22";
    TwoChunks(s, 2, "11", "22");
  }

  lemma Valid1122()
    ensures !IsRepetition(DecimalString(1122))
  {
    Appended(1, 1, "1");
    Appended(11, 2, "11");
    Appended(112, 2, "112");
    var s := DecimalString(1122);
    assert s == "1122";
    CharChunk(s, 0);
    CharChunk(s, 2);
    TwoChunks(s, 1, [s[0]], [s[2]]);
    Halves1122(s);
    Valid(s);
  }

  /** A seven-digit numeral whose first and last digits differ is no repetition: only chunks of one divide seven. */
  lemma ValidSeven(s: string)
    requires |s| == 7 && s[0] != s[6]
    ensures !IsRepetition(s)
  {
    CharChunk(s, 0);
    CharChunk(s, 6);
    TwoChunks(s, 1, [s[0]], [s[6]]);
    assert 7 % 2 == 1 && 7 % 3 == 1;
    Valid(s);
  }

  /** Writing one more digit after a numeral. */
  lemma Appended(n: nat, d: nat, s: string)
    requires 1 <= n && d < 10 && DecimalString(n) == s
    ensures DecimalString(10 * n + d) == s + [DigitChar(d)]
  {
    assert (10 * n + d) / 10 == n && (10 * n + d) % 10 == d;
  }

  lemma Valid9999990()
    ensures !IsRepetition(DecimalString(9999990))
  {
    Appended(9, 9, "9");
    Appended(99, 9, "99");
    Appended(999, 9, "999");
    Appended(9999, 9, "9999");
    Appended(99999, 9, "99999");
    Appended(999999, 0, "999999");
    ValidSeven(DecimalString(9999990));
  }

  lemma Invalid11()
    ensures IsRepetition(DecimalString(11))
  {
    assert DecimalString(11) == Repeat("1", 2);
  }

  lemma Invalid111()
    ensures IsRepetition(DecimalString(111))
  {
    assert DecimalString(111) == Repeat("1", 3);
  }

  lemma Invalid1212()
    ensures IsRepetition(DecimalString(1212))
  {
    assert DecimalString(1212) == Repeat("12", 2);
  }

  lemma Invalid121212()
    ensures IsRepetition(DecimalString(121212))
  {
    Appended(1, 2, "1");
    Appended(12, 1, "12");
    Appended(121, 2, "121");
    Appended(1212, 1, "1212");
    Appended(12121, 2, "12121");
    assert Repeat("12", 1) == "12";
    assert Repeat("12", 2) == "1212";
    assert Repeat("12", 3) == "121212";
  }

  lemma Invalid9999999()
    ensures IsRepetition(DecimalString(9999999))
  {
    Appended(9, 9, "9");
    Appended(99, 9, "99");
    Appended(999, 9, "999");
    Appended(9999, 9, "9999");
    Appended(99999, 9, "99999");
    Appended(999999, 9, "999999");
    assert Repeat("9", 1) == "9";
    assert Repeat("9", 2) == "99";
    assert Repeat("9", 3) == "999";
    assert Repeat("9", 4) == "9999";
    assert Repeat("9", 5) == "99999";
    assert Repeat("9", 6) == "999999";
    assert Repeat("9", 7) == "9999999";
  }

  lemma Invalid1188511885()
    ensures IsRepetition(DecimalString(1188511885))
  {
    Appended(1, 1, "1");
    Appended(11, 8, "11");
    Appended(118, 8, "118");
    Appended(1188, 5, "1188");
    Appended(11885, 1, "11885");
    Appended(118851, 1, "118851");
    Appended(1188511, 8, "1188511");
    Appended(11885118, 8, "11885118");
    Appended(118851188, 5, "118851188");
    assert Repeat("11885", 1) == "11885";
    assert Repeat("11885", 2) == "1188511885";
  }

  /** The cases of `test_is_valid_id_1`. */
  method IsValidIdExamples() {
    var v := IsValidId(11);
    Invalid11();
    assert !v;
    v := IsValidId(12);
    Valid12();
    assert v;
    v := IsValidId(101);
    Valid101();
    assert v;
    v := IsValidId(111);
    Invalid111();
    assert !v;
    v := IsValidId(1122);
    Valid1122();
    assert v;
  }

  method IsValidIdMoreExamples() {
    var v := IsValidId(1212);
    Invalid1212();
    assert !v;
    v := IsValidId(121212);
    Invalid121212();
    assert !v;
    v := IsValidId(9999999);
    Invalid9999999();
    assert !v;
    v := IsValidId(9999990);
    Valid9999990();
    assert v;
    v := IsValidId(1188511885);
    Invalid1188511885();
    assert !v;
  }

  // ---------------------------------------------------------------------------
  // The sum.

  /** The first range of the example line, `11-22`, holds the invalid ids 11 and 22. */
  lemma FirstRangeSum()
    ensures InvalidInRange(11, 22) == 33
  {
    forall id: nat | 10 <= id < 100
      ensures IsRepetition(DecimalString(id)) <==> id % 11 == 0
    {
      TwoDigitInvalid(id);
    }
    assert InvalidInRange(11, 11) == 11;
    assert InvalidInRange(11, 15) == 11;
    assert InvalidInRange(11, 21) == 11;
  }
}
