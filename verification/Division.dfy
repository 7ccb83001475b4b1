/** Quotients and remainders by a positive divisor. */
module Division {

  lemma Scale(k: int, d: int)
    requires k > 0 && d >= 1
    ensures k * d >= k
  {
  }

  /** A quotient and a remainder in range are the quotient and the remainder. */
  lemma Unique(n: int, k: int, q: int, r: int)
    requires k > 0 && 0 <= r < k && n == k * q + r
    ensures n / k == q && n % k == r
  {
    var q' := n / k;
    assert n == k * q' + n % k;
    assert k * (q - q') == n % k - r;
    if q - q' >= 1 { Scale(k, q - q'); assert false; }
    if q' - q >= 1 { Scale(k, q' - q); assert false; }
  }

  lemma AddDivisor(n: int, k: int)
    requires k > 0
    ensures (k + n) % k == n % k
  {
    assert k * (n / k + 1) == k * (n / k) + k;
    Unique(k + n, k, n / k + 1, n % k);
  }

  lemma Successor(n: int, k: int)
    requires k > 0
    ensures (n + 1) % k == if n % k + 1 == k then 0 else n % k + 1
  {
    if n % k + 1 == k {
      assert k * (n / k + 1) == k * (n / k) + k;
      Unique(n + 1, k, n / k + 1, 0);
    } else {
      Unique(n + 1, k, n / k, n % k + 1);
    }
  }
}
