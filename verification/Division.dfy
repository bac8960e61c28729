/** Facts about division by a variable. */
module Division {

  /** The quotient and remainder of a division are unique. */
  lemma RemainderOf(x: int, q: int, m: nat, r: nat)
    requires m > 0 && x == q * m + r && r < m
    ensures x % m == r && x / m == q
  {
    var d, e := x / m, x % m;
    assert x == d * m + e && (q - d) * m == e - r && (d - q) * m == r - e;
    if q > d {
      AtLeast(q - d, m);
    } else if q < d {
      AtLeast(d - q, m);
    }
  }

  lemma AtLeast(k: int, m: nat)
    requires k > 0
    ensures k * m >= m
  {
  }
}
