/** Facts about Dafny's `/` and `%` (floor division for a positive divisor)
    used by the calendar and the carousel. */
module Arith {

  /** Quotient and remainder are determined by the division equation. */
  lemma DivModUnique(a: int, k: int, q: int, r: int)
    requires k > 0 && 0 <= r < k && a == k * q + r
    ensures a / k == q && a % k == r
  {
    var q', r' := a / k, a % k;
    assert k * (q' - q) == r - r';
    MultipleInOpenRange(k, q' - q);
  }

  /** The only multiple of `k` strictly between `-k` and `k` is 0. */
  lemma MultipleInOpenRange(k: int, n: int)
    requires k > 0 && -k < k * n < k
    ensures n == 0
  {
  }

  /** Going from `y - 1` to `y`, the floor quotient by `k` grows by one exactly when `k` divides `y`. */
  lemma FloorStep(y: int, k: int)
    requires k > 0
    ensures y / k - (y - 1) / k == if y % k == 0 then 1 else 0
  {
    var q, r := (y - 1) / k, (y - 1) % k;
    if r == k - 1 {
      DivModUnique(y, k, q + 1, 0);
    } else {
      DivModUnique(y, k, q, r + 1);
    }
  }

  /** Reducing the left operand first does not change a sum's remainder. */
  lemma ModAddLeft(a: int, b: int, k: int)
    requires k > 0
    ensures (a % k + b) % k == (a + b) % k
  {
    var q, r := a / k, a % k;
    var q', r' := (r + b) / k, (r + b) % k;
    assert r + b == k * q' + r';
    DivModUnique(a + b, k, q + q', r');
  }

  /** Adding one steps the remainder, wrapping from `n - 1` to 0. */
  lemma ModSuccessor(a: int, n: int)
    requires n > 0
    ensures (a + 1) % n == if a % n == n - 1 then 0 else a % n + 1
  {
    var q, j := a / n, a % n;
    if j == n - 1 {
      DivModUnique(a + 1, n, q + 1, 0);
    } else {
      DivModUnique(a + 1, n, q, j + 1);
    }
  }
}
