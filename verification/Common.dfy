/** Bytes, optional values and division. */
module Common {
  /** A byte as a number, and as eight bits where the source works on bits. */
  type byte = x: int | 0 <= x < 256
  type octet = bv8

  datatype Option<+T> = None | Some(value: T)

  // Division by a positive number, one fact at a time.

  lemma DivMod(q: int, r: int, k: int)
    requires 0 <= r < k
    ensures (q * k + r) / k == q && (q * k + r) % k == r
  {
    var n := q * k + r;
    var q', r' := n / k, n % k;
    assert (q - q') * k == r' - r && (q' - q) * k == r - r';
    if q > q' { MulAtLeast(q - q', k); }
    if q < q' { MulAtLeast(q' - q, k); }
  }

  lemma MulAtLeast(a: int, k: int)
    requires a >= 1 && k >= 0
    ensures a * k >= k
  {
    assert a * k == k + (a - 1) * k;
  }
}
