/** Facts about Euclidean division on non-negative operands, used by the buffer and loop proofs. */
module DivMod {

  /** Quotient and remainder are determined by any decomposition n == q * d + r with 0 <= r < d. */
  lemma LemmaDivModUnique(n: int, d: int, q: int, r: int)
    requires d > 0 && 0 <= r < d && n == q * d + r
    ensures n / d == q && n % d == r
  {
    var q', r' := n / d, n % d;
    assert q' * d - q * d == (q' - q) * d;
    MulSign(q' - q, d);
  }

  lemma MulSign(k: int, d: int)
    requires d > 0
    ensures k >= 1 ==> k * d >= d
    ensures k <= -1 ==> k * d <= -d
  {
    if k >= 1 {
      assert k * d == (k - 1) * d + d;
    } else if k <= -1 {
      assert k * d == (k + 1) * d - d;
    }
  }
}
