/** Arithmetic of fixed-width integers, on a 32-bit target. */
module Machine {
  const TWO_16 := 0x1_0000
  const TWO_32 := 0x1_0000_0000
  const TWO_63 := 0x8000_0000_0000_0000
  const TWO_64 := 0x1_0000_0000_0000_0000

  /** What `usize` wraps around at. */
  const USIZE_WRAP := TWO_32

  /** `n as u32`. */
  function AsU32(n: nat): nat { n % TWO_32 }

  /** Two's complement wrap-around to 64 bits. */
  function Wrap64(x: int): int {
    (x + TWO_63) % TWO_64 - TWO_63
  }

  /** Division that rounds toward zero. */
  function TruncDiv(a: int, b: int): int
    requires b > 0
  {
    if a >= 0 then a / b else -(-a / b)
  }

  function Pow2(n: nat): nat { if n == 0 then 1 else 2 * Pow2(n - 1) }

  lemma WrapsNot(x: int)
    requires -TWO_63 <= x < TWO_63
    ensures Wrap64(x) == x
  {
  }

  lemma SmallU32(n: nat)
    requires n < TWO_32
    ensures AsU32(n) == n
  {}

  lemma ModUnique(x: int, q: int, r: int, m: int)
    requires x == q * m + r && 0 <= r < m
    ensures x % m == r
  {
    var d := q - x / m;
    assert d * m == x % m - r;
    Multiple(d, m);
  }

  lemma Multiple(d: int, m: int)
    requires m > 0
    ensures d >= 1 ==> d * m >= m
    ensures d <= -1 ==> d * m <= -m
  {
    if d >= 1 {
      assert (d - 1) * m >= 0;
    } else if d <= -1 {
      assert (-1 - d) * m >= 0;
    }
  }

  lemma WrapShift(y: int, k: int)
    ensures Wrap64(y - k * TWO_64) == Wrap64(y)
  {
    ModShift(y + TWO_63, k, TWO_64);
  }

  lemma ModShift(y: int, k: int, m: int)
    requires m > 0
    ensures (y - k * m) % m == y % m
  {
    var q, r := y / m, y % m;
    assert y - k * m == (q - k) * m + r;
    ModUnique(y - k * m, q - k, r, m);
  }
}
