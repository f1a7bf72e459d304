/** Facts about products that the solver does not find by itself. */
module Arithmetic {

  lemma Scale(b: nat, x: int, y: int)
    requires x <= y
    ensures b * x <= b * y
  {
  }

  lemma Remainder(m: nat, q: int, r: int)
    requires 0 <= r < m
    ensures (m * q + r) % m == r
  {
    var x := m * q + r;
    var d := x / m - q;
    assert x == m * (x / m) + x % m;
    assert m * d == m * (x / m) - m * q;
    if d > 0 {
      Scale(m, 1, d);
    } else if d < 0 {
      Scale(m, d, -1);
    }
  }
}
