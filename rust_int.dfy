/**
 * Rust's integer operators where they differ from Dafny's: `/` and `%`
 * truncate toward zero, so a negative dividend gives a non-positive
 * remainder. Also the bounds of the machine types the solvers use.
 */
module RustInt {
  const I32_MIN: int := -0x8000_0000
  const I32_MAX: int := 0x7fff_ffff
  const USIZE_MAX: int := 0xffff_ffff_ffff_ffff

  /** `a / b` in Rust, for a positive divisor: rounds toward zero. */
  function Quot(a: int, b: int): int
    requires b > 0
  {
    if a >= 0 then a / b else -((-a) / b)
  }

  /** `a % b` in Rust, for a positive divisor: takes the sign of `a`. */
  function Rem(a: int, b: int): (r: int)
    requires b > 0
    ensures a == Quot(a, b) * b + r
    ensures a >= 0 ==> 0 <= r < b
    ensures a < 0 ==> -b < r <= 0
  {
    if a >= 0 then a % b else -((-a) % b)
  }

  /** The Rust remainder and the Euclidean one agree modulo the divisor (here 100, the only one used). */
  lemma RemCongruent(a: int)
    ensures Rem(a, 100) % 100 == a % 100
  {
    if a < 0 {
      var q, t := (-a) / 100, (-a) % 100;
      assert Rem(a, 100) == -t && a == -(q * 100) - t;
      if t == 0 {
        DivModUnique(a, 100, -q, 0);
      } else {
        DivModUnique(-t, 100, -1, 100 - t);
        DivModUnique(a, 100, -q - 1, 100 - t);
      }
    }
  }

  /** Euclidean division is unique: a quotient and remainder in range are the ones `/` and `%` give. */
  lemma DivModUnique(m: int, k: int, q: int, r: int)
    requires k >= 1 && 0 <= r < k && m == q * k + r
    ensures m / k == q && m % k == r
  {
    var d := q - m / k;
    assert m == (m / k) * k + m % k;
    assert d * k == m % k - r;
    assert d >= 1 ==> d * k >= k;
    assert d <= -1 ==> (-d) * k >= k;
  }
}
