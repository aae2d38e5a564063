/** Division with remainder. */
module Arithmetic {
  lemma Monotone(m: int, a: int, b: int)
    requires 0 <= m && a <= b
    ensures m * a <= m * b
  {
    assert m * (b - a) >= 0;
  }

  /** Quotient and remainder are unique. */
  lemma ModIs(m: int, q: int, r: int)
    requires 0 <= r < m
    ensures (m * q + r) % m == r && (m * q + r) / m == q
  {
    var x := m * q + r;
    var d := x / m;
    if d > q {
      Monotone(m, q + 1, d);
    } else if d < q {
      Monotone(m, d + 1, q);
    }
  }

  /** Adding a multiple keeps the remainder. */
  lemma ModAdd(m: int, k: int, y: int)
    requires m > 0
    ensures (m * k + y) % m == y % m && (m * k + y) / m == k + y / m
  {
    assert y == m * (y / m) + y % m;
    assert m * k + m * (y / m) == m * (k + y / m);
    ModIs(m, k + y / m, y % m);
  }

  /** One more moves the quotient exactly at a multiple. */
  lemma DivNext(y: int, m: int)
    requires m > 0
    ensures y / m == (y - 1) / m + if y % m == 0 then 1 else 0
  {
    var q, r := (y - 1) / m, (y - 1) % m;
    assert y == m * q + r + 1;
    if r + 1 < m {
      ModIs(m, q, r + 1);
    } else {
      assert m * q + m == m * (q + 1);
      ModIs(m, q + 1, 0);
    }
  }
}
