/** Facts about integer multiplication and division, used by the product
    indexing and the binary64 rounding proofs. */
module Arith {

  lemma MulLeftMono(a: int, b: int, n: nat)
    requires a <= b
    ensures a * n <= b * n
  {
  }

  lemma DivModUnique(x: int, n: int, q: int, r: int)
    requires n > 0 && 0 <= r < n && x == q * n + r
    ensures x / n == q && x % n == r
  {
    var q', r' := x / n, x % n;
    assert (q - q') * n == r' - r;
    if q - q' >= 1 {
      MulLeftMono(1, q - q', n);
    } else if q - q' <= -1 {
      MulLeftMono(q - q', -1, n);
    }
  }
}
