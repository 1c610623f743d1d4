/**
 * The pieces of Rust's standard string handling the solvers rely on:
 * `str::split`, `str::lines`, `str::split_whitespace`, `str::parse` for
 * `usize` and `i32`, and `usize::to_string`. Strings are sequences of
 * Unicode scalar values (`char`); byte offsets play no part, since every
 * separator used is a single ASCII character.
 */
module Text {
  import opened Wrappers

  // ---------------------------------------------------------------------------
  // Decimal digits.

  predicate IsDigit(c: char) {
    '0' <= c <= '9'
  }

  predicate AllDigits(s: string) {
    forall i :: 0 <= i < |s| ==> IsDigit(s[i])
  }

  function DigitValue(c: char): nat
    requires IsDigit(c)
  {
    c as int - '0' as int
  }

  function DigitChar(d: nat): (c: char)
    requires d < 10
    ensures IsDigit(c) && DigitValue(c) == d
  {
    ('0' as int + d) as char
  }

  /** The number a string of decimal digits denotes, most significant digit first. */
  function DigitsValue(s: string): nat
    requires AllDigits(s)
  {
    if s == [] then 0 else 10 * DigitsValue(s[..|s| - 1]) + DigitValue(s[|s| - 1])
  }

  /** `n.to_string()`: the canonical decimal numeral, without leading zeros. */
  function DecimalString(n: nat): (s: string)
    ensures |s| >= 1 && AllDigits(s) && DigitsValue(s) == n
    ensures s[0] == '0' ==> s == "0"
    decreases n
  {
    if n < 10 then [DigitChar(n)]
    else
      var t := DecimalString(n / 10);
      var s := t + [DigitChar(n % 10)];
      assert s[..|s| - 1] == t;
      s
  }

  /** A number's numeral has one more digit for every factor of ten. */
  lemma {:induction false} DecimalStringLength(n: nat)
    ensures n < 10 ==> |DecimalString(n)| == 1
    ensures n >= 10 ==> |DecimalString(n)| == |DecimalString(n / 10)| + 1
  {
  }

  function Pow10(n: nat): nat {
    if n == 0 then 1 else 10 * Pow10(n - 1)
  }

  /** A numeral of `k` digits denotes less than `10^k`. */
  lemma {:induction false} DigitsValueBound(s: string)
    requires AllDigits(s)
    ensures DigitsValue(s) < Pow10(|s|)
  {
    if s != [] {
      DigitsValueBound(s[..|s| - 1]);
    }
  }

  /** `10^19`, the largest power of ten below `2^64`. */
  lemma Pow10Of19()
    ensures Pow10(19) == 10_000_000_000_000_000_000
  {
    assert Pow10(4) == 10_000;
    assert Pow10(8) == 100_000_000;
    assert Pow10(12) == 1_000_000_000_000;
    assert Pow10(16) == 10_000_000_000_000_000;
  }

  lemma {:induction false} Pow10Monotone(m: nat, n: nat)
    requires m <= n
    ensures Pow10(m) <= Pow10(n)
    decreases n
  {
    if m < n {
      Pow10Monotone(m, n - 1);
    }
  }

  // ---------------------------------------------------------------------------
  // `str::parse`.

  /**
   * `s.parse::<T>()` for an unsigned `T` whose largest value is `max`: an
   * optional `+`, then at least one decimal digit, denoting at most `max`.
   */
  function ParseUnsigned(s: string, max: nat): Option<nat> {
    var d := if |s| > 0 && s[0] == '+' then s[1..] else s;
    if d != [] && AllDigits(d) && DigitsValue(d) <= max then Some(DigitsValue(d)) else None
  }

  /**
   * `s.parse::<T>()` for a signed `T` with range `min..=max`: an optional
   * `+` or `-`, then at least one decimal digit, denoting a value in range.
   */
  function ParseSigned(s: string, min: int, max: int): Option<int> {
    var negative := |s| > 0 && s[0] == '-';
    var d := if |s| > 0 && (s[0] == '-' || s[0] == '+') then s[1..] else s;
    if d == [] || !AllDigits(d) then None
    else
      var m: int := DigitsValue(d);
      var v := if negative then -m else m;
      if min <= v <= max then Some(v) else None
  }

  /** Parsing undoes `to_string`, for every value of the type. */
  lemma ParseDecimalString(n: nat, max: nat)
    ensures ParseUnsigned(DecimalString(n), max) == if n <= max then Some(n) else None
  {
    var s := DecimalString(n);
    assert s[0] != '+';
  }

  /** A signed parse of a numeral with a minus sign gives the negated value, when it is in range. */
  lemma ParseNegated(n: nat, min: int, max: int)
    ensures ParseSigned("-" + DecimalString(n), min, max) == if min <= -(n as int) <= max then Some(-(n as int)) else None
  {
    var s := "-" + DecimalString(n);
    assert s[1..] == DecimalString(n);
  }

  /** What `parse` refuses: the empty string, a lone sign, a minus sign on an unsigned type. */
  lemma ParseRejects(max: nat, min: int, smax: int)
    ensures ParseUnsigned("", max) == None && ParseUnsigned("+", max) == None
    ensures ParseUnsigned("-1", max) == None && ParseUnsigned("1 ", max) == None
    ensures ParseSigned("", min, smax) == None && ParseSigned("-", min, smax) == None
    ensures ParseSigned("+", min, smax) == None
  {
    assert "+"[1..] == [];
    assert "-"[1..] == [];
    assert !IsDigit("-1"[0]);
    assert !IsDigit("1 "[1]);
  }

  // ---------------------------------------------------------------------------
  // `str::split` with a `char` separator.

  /** The inverse of `split`: the pieces glued back with the separator between them. */
  function Join(parts: seq<string>, sep: char): string {
    if parts == [] then []
    else if |parts| == 1 then parts[0]
    else parts[0] + [sep] + Join(parts[1..], sep)
  }

  lemma JoinCons(part: string, rest: seq<string>, sep: char)
    requires rest != []
    ensures Join([part] + rest, sep) == part + [sep] + Join(rest, sep)
  {
    assert ([part] + rest)[1..] == rest;
  }

  /** `s.split(sep)`: the maximal separator-free pieces, empty ones included. */
  function Split(s: string, sep: char): (r: seq<string>)
    ensures |r| >= 1
    ensures forall i :: 0 <= i < |r| ==> sep !in r[i]
    ensures Join(r, sep) == s
  {
    if s == [] then [[]]
    else
      var rest := Split(s[1..], sep);
      if s[0] == sep then
        assert Join([[]] + rest, sep) == [sep] + Join(rest, sep);
        [[]] + rest
      else
        var r := [[s[0]] + rest[0]] + rest[1..];
        assert s == [s[0]] + s[1..];
        r
  }

  /** `split` yields one piece more than there are separators. */
  lemma {:induction false} SplitCount(s: string, sep: char)
    ensures |Split(s, sep)| == multiset(s)[sep] + 1
  {
    if s != [] {
      SplitCount(s[1..], sep);
      assert s == [s[0]] + s[1..];
    }
  }

  lemma {:induction false} SplitGlued(a: string, b: string, sep: char)
    requires sep !in a
    ensures Split(a + [sep] + b, sep) == [a] + Split(b, sep)
    ensures Split(a, sep) == [a]
  {
    SplitAlone(a, sep);
    var s := a + [sep] + b;
    if a != [] {
      assert s[1..] == a[1..] + [sep] + b;
      var rest := Split(s[1..], sep);
      assert rest == [a[1..]] + Split(b, sep) by {
        SplitGlued(a[1..], b, sep);
      }
      assert Split(s, sep) == [[a[0]] + rest[0]] + rest[1..] by {
        assert s[0] == a[0] && a[0] in a;
      }
      assert [a[0]] + a[1..] == a;
    } else {
      assert s == [sep] + b && s[1..] == b;
    }
  }

  /** A text without the separator is one piece. */
  lemma {:induction false} SplitAlone(a: string, sep: char)
    requires sep !in a
    ensures Split(a, sep) == [a]
  {
    if a != [] {
      SplitAlone(a[1..], sep);
      assert a[0] in a;
      assert [a[0]] + a[1..] == a;
    }
  }

  /** `split` undoes `Join` on separator-free pieces: the two are inverse. */
  lemma {:induction false} SplitJoin(parts: seq<string>, sep: char)
    requires |parts| >= 1
    requires forall i :: 0 <= i < |parts| ==> sep !in parts[i]
    ensures Split(Join(parts, sep), sep) == parts
  {
    if |parts| == 1 {
      SplitGlued(parts[0], [], sep);
    } else {
      SplitJoin(parts[1..], sep);
      SplitGlued(parts[0], Join(parts[1..], sep), sep);
      assert parts == [parts[0]] + parts[1..];
    }
  }

  // ---------------------------------------------------------------------------
  // `str::lines`.

  /** A line ending `\r\n` loses its `\r` as well. */
  function StripCr(line: string): string {
    if |line| > 0 && line[|line| - 1] == '\r' then line[..|line| - 1] else line
  }

  /**
   * `s.lines()`: the text split at `\n`, a `\r` just before a `\n` dropped,
   * and no empty last line for a text that ends with its line ending.
   */
  function Lines(s: string): (r: seq<string>)
    ensures forall i :: 0 <= i < |r| ==> '\n' !in r[i]
  {
    var parts := Split(s, '\n');
    var last := parts[|parts| - 1];
    var init := seq(|parts| - 1, i requires 0 <= i < |parts| - 1 => StripCr(parts[i]));
    assert forall i :: 0 <= i < |init| ==> '\n' !in init[i] by {
      forall i | 0 <= i < |init|
        ensures '\n' !in init[i]
      {
        assert init[i] == StripCr(parts[i]);
        assert parts[i][..] == parts[i];
      }
    }
    if last == [] then init else init + [last]
  }

  /** Every line terminated by `\n`: the text a file of lines consists of. */
  function Terminated(lines: seq<string>): string {
    if lines == [] then [] else lines[0] + "\n" + Terminated(lines[1..])
  }

  lemma {:induction false} TerminatedIsJoin(lines: seq<string>)
    ensures Terminated(lines) == Join(lines + [[]], '\n')
  {
    if lines != [] {
      TerminatedIsJoin(lines[1..]);
      assert (lines + [[]])[1..] == lines[1..] + [[]];
    }
  }

  /** `lines` reads back the lines of a text written one `\n`-terminated line at a time. */
  lemma LinesOfTerminated(lines: seq<string>)
    requires forall i :: 0 <= i < |lines| ==> '\n' !in lines[i] && '\r' !in lines[i]
    ensures Lines(Terminated(lines)) == lines
  {
    TerminatedIsJoin(lines);
    var parts := lines + [[]];
    assert forall i :: 0 <= i < |parts| ==> '\n' !in parts[i];
    SplitJoin(parts, '\n');
    assert Split(Terminated(lines), '\n') == parts;
    var init := seq(|parts| - 1, i requires 0 <= i < |parts| - 1 => StripCr(parts[i]));
    forall i | 0 <= i < |lines|
      ensures init[i] == lines[i]
    {
      NoCrUnchanged(lines[i]);
    }
    assert init == lines;
  }

  lemma NoCrUnchanged(line: string)
    requires '\r' !in line
    ensures StripCr(line) == line
  {
    if |line| > 0 {
      assert line[|line| - 1] in line;
    }
  }

  // ---------------------------------------------------------------------------
  // `str::split_whitespace`.

  /** `char::is_whitespace`: the Unicode `White_Space` property. */
  predicate IsWhitespace(c: char) {
    ('\t' <= c <= '\r') || c == ' ' || c == '\U{0085}' || c == '\U{00A0}' || c == '\U{1680}'
    || ('\U{2000}' <= c <= '\U{200A}') || c == '\U{2028}' || c == '\U{2029}' || c == '\U{202F}'
    || c == '\U{205F}' || c == '\U{3000}'
  }

  predicate NoWhitespace(s: string) {
    forall i :: 0 <= i < |s| ==> !IsWhitespace(s[i])
  }

  /** All the characters of `s` except its whitespace, in order. */
  function Unspaced(s: string): string {
    if s == [] then [] else (if IsWhitespace(s[0]) then [] else [s[0]]) + Unspaced(s[1..])
  }

  function Concat(parts: seq<string>): string {
    if parts == [] then [] else parts[0] + Concat(parts[1..])
  }

  /**
   * `s.split_whitespace()`: the non-empty runs of non-whitespace characters.
   * Gluing the words back together gives the text without its whitespace.
   */
  function SplitWhitespace(s: string): (r: seq<string>)
    ensures forall i :: 0 <= i < |r| ==> r[i] != [] && NoWhitespace(r[i])
    ensures Concat(r) == Unspaced(s)
  {
    Words(s, [])
  }

  /** The words of `s`, the first of them prefixed by `current`, a run of non-whitespace already read. */
  function Words(s: string, current: string): (r: seq<string>)
    requires NoWhitespace(current)
    ensures forall i :: 0 <= i < |r| ==> r[i] != [] && NoWhitespace(r[i])
    ensures Concat(r) == current + Unspaced(s)
    ensures current != [] ==> r != [] && |r[0]| >= |current| && r[0][..|current|] == current
  {
    if s == [] then
      if current == [] then [] else
        assert Concat([current]) == current + Concat([]);
        [current]
    else if IsWhitespace(s[0]) then
      var rest := Words(s[1..], []);
      assert Unspaced(s) == Unspaced(s[1..]);
      if current == [] then rest else
        var r := [current] + rest;
        assert r[0] == current && r[1..] == rest;
        r
    else
      var next := current + [s[0]];
      var rest := Words(s[1..], next);
      assert Unspaced(s) == [s[0]] + Unspaced(s[1..]);
      assert next + Unspaced(s[1..]) == current + Unspaced(s);
      assert next[..|current|] == current;
      assert rest[0][..|current|] == next[..|current|];
      rest
  }

  /** Every character of `s` is whitespace. */
  predicate Blank(s: string) {
    forall i :: 0 <= i < |s| ==> IsWhitespace(s[i])
  }

  /** A run of non-whitespace extends the word being read. */
  lemma {:induction false} WordsRun(w: string, t: string, current: string)
    requires NoWhitespace(w) && NoWhitespace(current)
    ensures Words(w + t, current) == Words(t, current + w)
    decreases |w|
  {
    if w == [] {
      assert w + t == t && current + w == current;
    } else {
      assert (w + t)[0] == w[0] && (w + t)[1..] == w[1..] + t;
      WordsRun(w[1..], t, current + [w[0]]);
      assert current + [w[0]] + w[1..] == current + w;
    }
  }

  /** Whitespace alone holds no word; after a word it ends that word. */
  lemma {:induction false} WordsBlank(t: string, current: string)
    requires Blank(t) && NoWhitespace(current)
    ensures Words(t, current) == if current == [] then [] else [current]
    decreases |t|
  {
    if t != [] {
      WordsBlank(t[1..], []);
    }
  }

  /** A word followed by whitespace is read whole, and reading starts afresh after the whitespace. */
  lemma WordThenSpace(w: string, x: string)
    requires w != [] && NoWhitespace(w)
    requires x != [] && IsWhitespace(x[0])
    ensures Words(w + x, []) == [w] + Words(x[1..], [])
  {
    WordsRun(w, x, []);
    assert [] + w == w;
  }

  /** A word followed by nothing but whitespace is the only word. */
  lemma WordThenBlank(w: string, post: string)
    requires w != [] && NoWhitespace(w) && Blank(post)
    ensures Words(w + post, []) == [w]
  {
    WordsRun(w, post, []);
    assert [] + w == w;
    WordsBlank(post, w);
  }

  /** Joined words are read one at a time: the first, then the rest. */
  lemma WordsJoinStep(ws: seq<string>, sep: char, post: string)
    requires |ws| >= 2 && IsWhitespace(sep)
    requires ws[0] != [] && NoWhitespace(ws[0])
    ensures Words(Join(ws, sep) + post, []) == [ws[0]] + Words(Join(ws[1..], sep) + post, [])
  {
    var rest := Join(ws[1..], sep) + post;
    var x := [sep] + rest;
    assert Join(ws, sep) + post == ws[0] + x;
    assert x[1..] == rest;
    WordThenSpace(ws[0], x);
  }

  /** Words joined by a whitespace character and followed by whitespace read back as themselves. */
  lemma {:induction false} WordsJoin(ws: seq<string>, sep: char, post: string)
    requires IsWhitespace(sep) && Blank(post)
    requires forall i :: 0 <= i < |ws| ==> ws[i] != [] && NoWhitespace(ws[i])
    ensures Words(Join(ws, sep) + post, []) == ws
    decreases |ws|
  {
    if ws == [] {
      assert Join(ws, sep) + post == post;
      WordsBlank(post, []);
    } else if |ws| == 1 {
      WordThenBlank(ws[0], post);
    } else {
      WordsJoinStep(ws, sep, post);
      WordsJoin(ws[1..], sep, post);
      assert [ws[0]] + ws[1..] == ws;
    }
  }

  /** Leading whitespace is skipped. */
  lemma {:induction false} WordsSkip(pre: string, t: string)
    requires Blank(pre)
    ensures Words(pre + t, []) == Words(t, [])
    decreases |pre|
  {
    if pre != [] {
      var s := pre + t;
      assert s[0] == pre[0] && IsWhitespace(s[0]);
      assert s[1..] == pre[1..] + t;
      assert Words(s, []) == Words(s[1..], []);
      WordsSkip(pre[1..], t);
    } else {
      assert pre + t == t;
    }
  }

  /**
   * The words are the maximal runs of non-whitespace: words written with a
   * whitespace character between each two, and with any whitespace before
   * and after, split back into exactly those words.
   */
  lemma SplitWhitespaceOfWords(pre: string, ws: seq<string>, sep: char, post: string)
    requires Blank(pre) && IsWhitespace(sep) && Blank(post)
    requires forall i :: 0 <= i < |ws| ==> ws[i] != [] && NoWhitespace(ws[i])
    ensures SplitWhitespace(pre + (Join(ws, sep) + post)) == ws
  {
    var t := Join(ws, sep) + post;
    WordsJoin(ws, sep, post);
    WordsSkip(pre, t);
  }
}
