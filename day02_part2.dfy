/**
 * Day 2, part 2 (day-02/src/part2.rs): an id is invalid when its decimal
 * numeral is one block of digits written at least twice (`11`, `1212`,
 * `111`), and the answer is the sum of the invalid ids in the given
 * inclusive ranges. The range reader is the one of part 1.
 */
module Day02Part2 {
  import opened Wrappers
  import opened Text
  import opened RustInt
  import opened Day02Part1

  /** `b` written `n` times in a row. */
  function Repeat(b: string, n: nat): string {
    if n == 0 then [] else b + Repeat(b, n - 1)
  }

  /** The numerals of invalid ids: some block written two or more times. */
  ghost predicate IsRepetition(s: string) {
    exists b: string, n: nat :: n >= 2 && s == Repeat(b, n)
  }

  // ---------------------------------------------------------------------------
  // Remainders (`len % chunk_size`).

  /** A positive multiple of `k` is at least `k`, and removing one `k` leaves a multiple of `k`. */
  lemma MultipleStep(n: int, k: int)
    requires k >= 1 && n > 0 && n % k == 0
    ensures n >= k && (n - k) % k == 0
  {
    var q := n / k;
    assert n == q * k + n % k;
    assert q <= 0 ==> (-q) * k >= 0;
    DivModUnique(n - k, k, q - 1, 0);
  }

  /** Adding `k` to a multiple of `k` gives a multiple of `k`. */
  lemma MultipleAdd(n: int, k: int)
    requires k >= 1 && n >= 0 && n % k == 0
    ensures (n + k) % k == 0
  {
    var q := n / k;
    assert n == q * k + n % k;
    DivModUnique(n + k, k, q + 1, 0);
  }

  // ---------------------------------------------------------------------------
  // Chunks.

  /** The consecutive length-`k` pieces of `s`, in order. */
  function Chunks(s: string, k: nat): (r: seq<string>)
    requires k >= 1 && |s| % k == 0
    ensures forall i :: 0 <= i < |r| ==> |r[i]| == k
    ensures Concat(r) == s
    ensures |s| > 0 ==> |r| > 0 && r[0] == s[..k]
    decreases |s|
  {
    if |s| == 0 then []
    else
      MultipleStep(|s|, k);
      var r := [s[..k]] + Chunks(s[k..], k);
      assert r[1..] == Chunks(s[k..], k);
      r
  }

  /** The first chunk, then the chunks of the rest. */
  lemma ChunksCons(s: string, k: nat)
    requires k >= 1 && |s| % k == 0 && |s| > 0
    ensures |s| >= k && (|s| - k) % k == 0
    ensures Chunks(s, k) == [s[..k]] + Chunks(s[k..], k)
  {
    MultipleStep(|s|, k);
  }

  /** The distinct chunks are the first one and those of the rest. */
  lemma ChunkSetCons(s: string, k: nat)
    requires k >= 1 && |s| % k == 0 && |s| > 0
    ensures |s| >= k && (|s| - k) % k == 0
    ensures ChunkSet(s, k) == {s[..k]} + ChunkSet(s[k..], k)
  {
    ChunksCons(s, k);
  }

  /** Chunks of one character are the characters. */
  lemma {:induction false} ChunksOfOne(s: string)
    ensures |s| % 1 == 0 && Chunks(s, 1) == seq(|s|, i requires 0 <= i < |s| => [s[i]])
  {
    if s != [] {
      ChunksCons(s, 1);
      ChunksOfOne(s[1..]);
      assert s[..1] == [s[0]];
      var r := seq(|s|, i requires 0 <= i < |s| => [s[i]]);
      assert r == [[s[0]]] + seq(|s| - 1, i requires 0 <= i < |s| - 1 => [s[1..][i]]);
    }
  }

  /** The set `split_string` builds. */
  function ChunkSet(s: string, k: nat): set<string>
    requires k >= 1 && |s| % k == 0
  {
    set c | c in Chunks(s, k)
  }

  /** Each character, as a string, is a chunk of size one. */
  lemma CharChunk(s: string, i: int)
    requires 0 <= i < |s|
    ensures |s| % 1 == 0 && [s[i]] in ChunkSet(s, 1)
  {
    ChunksOfOne(s);
    assert Chunks(s, 1)[i] == [s[i]];
  }

  /** Two different chunks make more than one. */
  lemma TwoChunks(s: string, k: nat, x: string, y: string)
    requires k >= 1 && |s| % k == 0
    requires x in ChunkSet(s, k) && y in ChunkSet(s, k) && x != y
    ensures |ChunkSet(s, k)| != 1
  {
    if |ChunkSet(s, k)| == 1 {
      SingletonMembers(ChunkSet(s, k), x);
    }
  }

  /**
   * `split_string`: the set of consecutive `chunk_size`-long pieces of
   * `id_str`. A non-empty string needs a positive chunk size (`chunk_size - 1`
   * underflows otherwise) that divides its length (the last slice runs past
   * the end otherwise).
   */
  method SplitString(idStr: string, chunkSize: nat) returns (chunks: set<string>)
    requires |idStr| == 0 || (chunkSize >= 1 && |idStr| % chunkSize == 0)
    ensures |idStr| == 0 ==> chunks == {}
    ensures chunkSize >= 1 ==> chunks == ChunkSet(idStr, chunkSize)
  {
    chunks := {};
    var start := 0;
    while start < |idStr|
      invariant 0 <= start <= |idStr|
      invariant |idStr| == 0 ==> chunks == {}
      invariant chunkSize >= 1 ==> ((|idStr| - start) % chunkSize == 0
        && chunks + ChunkSet(idStr[start..], chunkSize) == ChunkSet(idStr, chunkSize))
      decreases |idStr| - start
    {
      var end := start + chunkSize - 1;
      var chunk := idStr[start..end + 1];
      ghost var rest := idStr[start..];
      ChunkSetCons(rest, chunkSize);
      assert rest[..chunkSize] == chunk;
      assert rest[chunkSize..] == idStr[end + 1..];
      chunks := chunks + {chunk};
      start := start + chunkSize;
    }
    if chunkSize >= 1 {
      assert ChunkSet(idStr[start..], chunkSize) == {};
    }
  }

  // ---------------------------------------------------------------------------
  // A single chunk is a repetition.

  lemma {:induction false} ConcatOfCopies(parts: seq<string>, b: string)
    requires forall i :: 0 <= i < |parts| ==> parts[i] == b
    ensures Concat(parts) == Repeat(b, |parts|)
  {
    if parts != [] {
      ConcatOfCopies(parts[1..], b);
    }
  }

  lemma {:induction false} RepeatLength(b: string, n: nat)
    requires b != []
    ensures |Repeat(b, n)| % |b| == 0 && |Repeat(b, n)| >= n
    ensures n >= 2 ==> |Repeat(b, n)| >= 2 * |b|
  {
    if n > 0 {
      RepeatLength(b, n - 1);
      MultipleAdd(|Repeat(b, n - 1)|, |b|);
      if n >= 2 {
        RepeatLength(b, n - 2);
        assert Repeat(b, n) == b + (b + Repeat(b, n - 2));
      }
    }
  }

  /** The chunks of a repetition of `b`, taken `|b|` at a time, are copies of `b`. */
  lemma {:induction false} ChunksOfRepeat(b: string, n: nat)
    requires b != []
    ensures |Repeat(b, n)| % |b| == 0 && Chunks(Repeat(b, n), |b|) == seq(n, _ => b)
  {
    RepeatLength(b, n);
    if n > 0 {
      var s := Repeat(b, n);
      assert s[..|b|] == b && s[|b|..] == Repeat(b, n - 1);
      ChunksOfRepeat(b, n - 1);
    }
  }

  /** A set with exactly one element holds nothing else. */
  lemma SingletonMembers<T>(a: set<T>, x: T)
    requires |a| == 1 && x in a
    ensures a == {x}
  {
    assert a == (a - {x}) + {x};
    assert |a - {x}| == 0;
    assert a - {x} == {};
  }

  /**
   * The test `is_valid_id` makes: a non-empty numeral is a repetition exactly
   * when one chunk size up to half its length divides its length and gives a
   * single distinct chunk.
   */
  lemma RepetitionIffOneChunk(s: string)
    requires s != []
    ensures IsRepetition(s) <==> exists k :: 1 <= k <= |s| / 2 && |s| % k == 0 && |ChunkSet(s, k)| == 1
  {
    if IsRepetition(s) {
      var b: string, n: nat :| n >= 2 && s == Repeat(b, n);
      if b == [] {
        RepeatOfEmpty(n);
      }
      RepeatLength(b, n);
      ChunksOfRepeat(b, n);
      var k := |b|;
      assert ChunkSet(s, k) == {b};
      assert 1 <= k <= |s| / 2 && |s| % k == 0 && |ChunkSet(s, k)| == 1;
    }
    if k :| 1 <= k <= |s| / 2 && |s| % k == 0 && |ChunkSet(s, k)| == 1 {
      var r := Chunks(s, k);
      var b := s[..k];
      SingletonMembers(ChunkSet(s, k), b);
      assert forall i :: 0 <= i < |r| ==> r[i] in ChunkSet(s, k);
      ConcatOfCopies(r, b);
      MultipleStep(|s|, k);
      assert r[1..] == Chunks(s[k..], k);
      assert |r| >= 2;
      assert s == Repeat(b, |r|);
    }
  }

  lemma {:induction false} RepeatOfEmpty(n: nat)
    ensures Repeat([], n) == []
  {
    if n > 0 {
      RepeatOfEmpty(n - 1);
    }
  }

  /**
   * `is_valid_id`: false as soon as some chunk size up to half the numeral's
   * length divides it into copies of one chunk; true when none does.
   */
  method IsValidId(id: nat) returns (valid: bool)
    ensures valid <==> !IsRepetition(DecimalString(id))
  {
    var idStr := DecimalString(id);
    for chunkSize := 1 to |idStr| / 2 + 1
      invariant forall k :: 1 <= k < chunkSize && |idStr| % k == 0 ==> |ChunkSet(idStr, k)| != 1
    {
      if |idStr| % chunkSize == 0 {
        var chunks := SplitString(idStr, chunkSize);
        if |chunks| == 1 {
          RepetitionIffOneChunk(idStr);
          return false;
        }
      }
    }
    RepetitionIffOneChunk(idStr);
    return true;
  }

  /** Single-digit ids are always valid: no chunk size is tried. */
  lemma SingleDigitValid(id: nat)
    requires id < 10
    ensures !IsRepetition(DecimalString(id))
  {
    RepetitionIffOneChunk(DecimalString(id));
  }

  /** A numeral of two characters is a repetition exactly when they are equal. */
  lemma TwoCharRepetition(s: string)
    requires |s| == 2
    ensures IsRepetition(s) <==> s[0] == s[1]
  {
    RepetitionIffOneChunk(s);
    assert Chunks(s, 1) == [[s[0]], [s[1]]] by {
      assert s[..1] == [s[0]] && s[1..][..1] == [s[1]];
      assert s[1..][1..] == [];
    }
    assert ChunkSet(s, 1) == {[s[0]], [s[1]]};
    if s[0] != s[1] {
      assert [s[0]] != [s[1]];
    }
  }

  /** The invalid two-digit ids are the multiples of eleven. */
  lemma TwoDigitInvalid(id: nat)
    requires 10 <= id < 100
    ensures IsRepetition(DecimalString(id)) <==> id % 11 == 0
  {
    var s := DecimalString(id);
    assert s == DecimalString(id / 10) + [DigitChar(id % 10)];
    assert s == [DigitChar(id / 10), DigitChar(id % 10)];
    TwoCharRepetition(s);
    assert s[0] == s[1] <==> id / 10 == id % 10;
  }

  // ---------------------------------------------------------------------------
  // The sum.

  /** The sum of the invalid ids in `lo..=hi`. */
  ghost function InvalidInRange(lo: nat, hi: int): nat
    decreases hi - lo
  {
    if hi < lo then 0
    else InvalidInRange(lo, hi - 1) + (if IsRepetition(DecimalString(hi)) then hi else 0)
  }

  /** Ranges of single-digit ids add nothing. */
  lemma {:induction false} SingleDigitRange(lo: nat, hi: int)
    requires hi <= 9
    ensures InvalidInRange(lo, hi) == 0
    decreases hi - lo
  {
    if hi >= lo {
      SingleDigitValid(hi);
      SingleDigitRange(lo, hi - 1);
    }
  }

  /** The sum over every range of the invalid ids in it; an id in two ranges counts twice. */
  ghost function InvalidTotal(ranges: seq<(nat, nat)>): nat {
    if ranges == [] then 0
    else InvalidTotal(ranges[..|ranges| - 1]) + InvalidInRange(ranges[|ranges| - 1].0, ranges[|ranges| - 1].1)
  }

  /** The summing loop of `process`: every id of every range, in order, adding the invalid ones. */
  method SumInvalidIds(ranges: seq<(nat, nat)>) returns (sum: nat)
    ensures sum == InvalidTotal(ranges)
  {
    sum := 0;
    for i := 0 to |ranges|
      invariant sum == InvalidTotal(ranges[..i])
    {
      var (lo, hi) := ranges[i];
      ghost var before := sum;
      var id: int := lo;
      while id <= hi
        invariant lo <= id && (id <= hi + 1 || id == lo)
        invariant sum == before + InvalidInRange(lo, id - 1)
        decreases hi - id
      {
        var valid := IsValidId(id);
        if !valid {
          sum := sum + id;
        }
        id := id + 1;
      }
      assert InvalidInRange(lo, id - 1) == InvalidInRange(lo, hi);
      assert ranges[..i + 1][..i] == ranges[..i];
    }
    assert ranges[..|ranges|] == ranges;
  }

  /**
   * `process` of part 2 without the file: the ranges of the first line, and
   * the sum of the invalid ids in them.
   */
  method Process(lines: seq<string>) returns (r: Result<nat, InputError>)
    ensures r.Ok? <==> |lines| >= 1 && ProcessInput(lines[0]).Ok?
    ensures lines == [] ==> r == Err(NoLine)
    ensures r.Ok? ==> r.value == InvalidTotal(ProcessInput(lines[0]).value)
  {
    if lines == [] {
      return Err(NoLine);
    }
    match ProcessInput(lines[0])
    case Err(e) =>
      return Err(e);
    case Ok(input) =>
      var sum := SumInvalidIds(input);
      return Ok(sum);
  }
}
