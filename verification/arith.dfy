/** Facts about integer multiplication, division and remainder that the index arithmetic needs. */
module Arith {

  /** Division and remainder by a positive divisor are unique. */
  lemma DivMod(q: int, r: int, d: int)
    requires 0 < d && 0 <= r < d
    ensures (q * d + r) / d == q && (q * d + r) % d == r
  {
    var a := q * d + r;
    var k := a / d - q;
    assert d * k == r - a % d;
  }

  /** Multiplying by a non-negative factor keeps the order. */
  lemma MulLe(a: int, b: int, k: int)
    requires a <= b && 0 <= k
    ensures a * k <= b * k
  {
    assert b * k - a * k == (b - a) * k;
  }

  /** A row-major position `y * n + x` with `x < n` lies below the start of row `y + 1`. */
  lemma RowBound(x: int, y: int, n: int, rows: int)
    requires 0 <= x < n && 0 <= y < rows
    ensures 0 <= y * n + x < rows * n
    ensures y * n + x + 1 <= (y + 1) * n <= rows * n
  {
    MulLe(y + 1, rows, n);
    assert (y + 1) * n == y * n + n;
  }
}
