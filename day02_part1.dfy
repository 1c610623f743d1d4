/**
 * Day 2, part 1 (day-02/src/part1.rs): the reader of the puzzle's single
 * line of inclusive id ranges, `a-b,c-d,…`. The same reader is repeated
 * verbatim in day-02/src/part2.rs and is modelled once, here.
 */
module Day02Part1 {
  import opened Wrappers
  import opened Text
  import opened RustInt

  /**
   * Why a line is refused; each is a panic in the source: an element whose
   * text before its first `-` (or whose second number) is not a `usize`
   * (`unwrap` of a failed `parse`), an element with no `-` at all (`p[1]`
   * out of bounds), and a file without a first line (`unwrap` of `None`).
   */
  datatype InputError = InvalidNumber | MissingDash | NoLine

  /**
   * One element `a-b`: the number before the first `-` and the one after it;
   * anything after a second `-` is ignored. The first number is parsed
   * before the second piece is looked up, so `x` (no dash, not a number)
   * fails as a bad number and `7` (no dash) as a missing dash.
   */
  function ParsePair(element: string): (r: Result<(nat, nat), InputError>)
    ensures r.Ok? ==> r.value.0 <= USIZE_MAX && r.value.1 <= USIZE_MAX
    ensures '-' !in element ==> r.Err?
    ensures r == Err(MissingDash) ==> '-' !in element
  {
    var p := Split(element, '-');
    SplitCount(element, '-');
    assert '-' !in element ==> multiset(element)['-'] == 0;
    match ParseUnsigned(p[0], USIZE_MAX)
    case None => Err(InvalidNumber)
    case Some(a) =>
      if |p| < 2 then
        Err(MissingDash)
      else
        match ParseUnsigned(p[1], USIZE_MAX)
        case None => Err(InvalidNumber)
        case Some(b) => Ok((a, b))
  }

  /** The elements in order, stopping at the first that does not parse, which gives the error. */
  function ParsePairs(elements: seq<string>): (r: Result<seq<(nat, nat)>, InputError>)
    ensures r.Ok? <==> forall i :: 0 <= i < |elements| ==> ParsePair(elements[i]).Ok?
    ensures r.Ok? ==> (|r.value| == |elements|
      && forall i :: 0 <= i < |elements| ==> ParsePair(elements[i]) == Ok(r.value[i]))
    ensures r.Err? ==> exists i :: (0 <= i < |elements| && ParsePair(elements[i]) == Err(r.error)
      && forall j :: 0 <= j < i ==> ParsePair(elements[j]).Ok?)
  {
    var rs := seq(|elements|, i requires 0 <= i < |elements| => ParsePair(elements[i]));
    assert forall i :: 0 <= i < |elements| ==> rs[i] == ParsePair(elements[i]);
    Collect(rs)
  }

  /** `process_input`: the comma-separated elements of the line, each read as a pair, in order. */
  function ProcessInput(data: string): (r: Result<seq<(nat, nat)>, InputError>)
    ensures r.Ok? <==> forall e :: e in Split(data, ',') ==> ParsePair(e).Ok?
    ensures r.Ok? ==> (|r.value| == |Split(data, ',')|
      && forall i :: 0 <= i < |r.value| ==> ParsePair(Split(data, ',')[i]) == Ok(r.value[i]))
  {
    var elements := Split(data, ',');
    var r := ParsePairs(elements);
    assert (forall e :: e in elements ==> ParsePair(e).Ok?)
      <==> (forall i :: 0 <= i < |elements| ==> ParsePair(elements[i]).Ok?);
    r
  }

  // ---------------------------------------------------------------------------
  // Reading back what was written.

  /** The element a pair is written as: `a-b`. */
  function PairText(p: (nat, nat)): string {
    DecimalString(p.0) + "-" + DecimalString(p.1)
  }

  /** The line a list of pairs is written as: the elements joined with commas. */
  function Written(pairs: seq<(nat, nat)>): string {
    Join(seq(|pairs|, i requires 0 <= i < |pairs| => PairText(pairs[i])), ',')
  }

  lemma NumeralHasNoSeparator(n: nat, c: char)
    requires !IsDigit(c)
    ensures c !in DecimalString(n)
  {
  }

  /** Reading a written pair gives the pair back. */
  lemma ParsePairText(p: (nat, nat))
    requires p.0 <= USIZE_MAX && p.1 <= USIZE_MAX
    ensures ParsePair(PairText(p)) == Ok(p)
  {
    var a, b := DecimalString(p.0), DecimalString(p.1);
    NumeralHasNoSeparator(p.0, '-');
    NumeralHasNoSeparator(p.1, '-');
    assert PairText(p) == a + ['-'] + b;
    SplitGlued(a, b, '-');
    SplitGlued(b, [], '-');
    ParseDecimalString(p.0, USIZE_MAX);
    ParseDecimalString(p.1, USIZE_MAX);
  }

  /** `process_input` reads back any non-empty list of `usize` pairs written as `a-b,c-d,…`, in order. */
  lemma ProcessInputWritten(pairs: seq<(nat, nat)>)
    requires |pairs| >= 1
    requires forall i :: 0 <= i < |pairs| ==> pairs[i].0 <= USIZE_MAX && pairs[i].1 <= USIZE_MAX
    ensures ProcessInput(Written(pairs)) == Ok(pairs)
  {
    var texts := seq(|pairs|, i requires 0 <= i < |pairs| => PairText(pairs[i]));
    forall i | 0 <= i < |texts|
      ensures ',' !in texts[i] && ParsePair(texts[i]) == Ok(pairs[i])
    {
      NumeralHasNoSeparator(pairs[i].0, ',');
      NumeralHasNoSeparator(pairs[i].1, ',');
      ParsePairText(pairs[i]);
    }
    SplitJoin(texts, ',');
    var r := ProcessInput(Written(pairs));
    assert r.Ok?;
    assert r.value == pairs;
  }

  /** The empty line is refused: its one element is not a number. */
  lemma EmptyLineRejected()
    ensures ProcessInput("") == Err(InvalidNumber)
  {
    ParseRejects(USIZE_MAX, 0, 0);
  }

  /** A numeral of at most 19 digits parses as a `usize` and holds no separator. */
  lemma ShortNumeral(a: string)
    requires a != [] && AllDigits(a) && |a| <= 19
    ensures ParseUnsigned(a, USIZE_MAX) == Some(DigitsValue(a))
    ensures '-' !in a && ',' !in a
  {
    assert forall i :: 0 <= i < |a| ==> a[i] != '-' && a[i] != ',';
    DigitsValueBound(a);
    Pow10Monotone(|a|, 19);
    Pow10Of19();
  }

  /** Any two numerals of at most 19 digits each, joined by a dash, read as a pair: a `usize` holds every such number. */
  lemma ShortNumeralsParse(element: string, a: string, b: string)
    requires a != [] && b != [] && AllDigits(a) && AllDigits(b)
    requires |a| <= 19 && |b| <= 19
    requires element == a + "-" + b
    ensures ParsePair(element).Ok? && ',' !in element
  {
    ShortNumeral(a);
    ShortNumeral(b);
    assert element == a + ['-'] + b;
    SplitGlued(a, b, '-');
    SplitGlued(b, [], '-');
  }

  /** A number alone, without a dash, is refused for the missing dash. */
  lemma NoDashRejected(n: nat)
    requires n <= USIZE_MAX
    ensures ParsePair(DecimalString(n)) == Err(MissingDash)
  {
    NumeralHasNoSeparator(n, '-');
    SplitGlued(DecimalString(n), [], '-');
    ParseDecimalString(n, USIZE_MAX);
  }

  /** Two dashes in a row leave an empty second number, which is refused. */
  lemma EmptyNumberRejected(n: nat, tail: string)
    requires n <= USIZE_MAX
    ensures ParsePair(DecimalString(n) + "--" + tail) == Err(InvalidNumber)
  {
    var a := DecimalString(n);
    NumeralHasNoSeparator(n, '-');
    assert a + "--" + tail == a + ['-'] + ([] + ['-'] + tail);
    SplitGlued(a, [] + ['-'] + tail, '-');
    SplitGlued([], tail, '-');
    ParseDecimalString(n, USIZE_MAX);
    ParseRejects(USIZE_MAX, 0, 0);
  }

  /** Text after a second dash is ignored. */
  lemma ExtraDashIgnored(p: (nat, nat), tail: string)
    requires p.0 <= USIZE_MAX && p.1 <= USIZE_MAX
    ensures ParsePair(PairText(p) + "-" + tail) == Ok(p)
  {
    var a, b := DecimalString(p.0), DecimalString(p.1);
    NumeralHasNoSeparator(p.0, '-');
    NumeralHasNoSeparator(p.1, '-');
    assert PairText(p) + "-" + tail == a + ['-'] + (b + ['-'] + tail);
    SplitGlued(a, b + ['-'] + tail, '-');
    SplitGlued(b, tail, '-');
    ParseDecimalString(p.0, USIZE_MAX);
    ParseDecimalString(p.1, USIZE_MAX);
  }

  /**
   * `process` of part 1 without the file: the first line must be there and
   * must read as ranges, and the answer is always `"sup"`.
   */
  function Process(lines: seq<string>): (r: Result<string, InputError>)
    ensures r.Ok? ==> r.value == "sup"
    ensures r.Ok? <==> |lines| >= 1 && ProcessInput(lines[0]).Ok?
    ensures lines == [] ==> r == Err(NoLine)
  {
    if lines == [] then Err(NoLine)
    else
      match ProcessInput(lines[0])
      case Err(e) => Err(e)
      case Ok(_) => Ok("sup")
  }
}
