/** Division facts and powers of two. */
module Arith {
  const U32: nat := 0x1_0000_0000

  lemma Scale(a: int, b: int, k: int)
    requires a <= b && k >= 0
    ensures a * k <= b * k
  {
  }

  /** Quotient and remainder are unique. */
  lemma DivMod(w: int, k: int, q: int, r: int)
    requires k > 0 && 0 <= r < k && w == q * k + r
    ensures w / k == q && w % k == r
  {
    var d := q - w / k;
    assert d * k == w % k - r by {
      assert w == w / k * k + w % k;
      assert d * k == q * k - w / k * k;
    }
    if d >= 1 {
      Scale(1, d, k);
    } else if d <= -1 {
      Scale(d, -1, k);
    }
  }

  function Pow2(n: nat): (r: nat)
    ensures r >= 1
  {
    if n == 0 then 1 else 2 * Pow2(n - 1)
  }

  /** Number of bits to tell `n` values apart. */
  function Clog2(n: nat): nat {
    if n <= 1 then 0 else 1 + Clog2((n + 1) / 2)
  }

  /** The least power of two that is not below `n`. */
  lemma {:induction false} Clog2Covers(n: nat)
    ensures n <= Pow2(Clog2(n))
    ensures n > 1 ==> Pow2(Clog2(n)) < 2 * n
  {
    if n > 1 {
      Clog2Covers((n + 1) / 2);
    }
  }
}
