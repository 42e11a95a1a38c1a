// Quotients and remainders.

module Division {
  lemma NoMultiple(z: int, u: int)
    requires -u < z * u < u
    ensures z == 0
  {
  }

  lemma DivUnique(x: int, u: int, a: int, b: int)
    requires u > 0 && 0 <= b < u && x == a * u + b
    ensures x / u == a && x % u == b
  {
    assert (x / u - a) * u == b - x % u;
    NoMultiple(x / u - a, u);
  }

  /** Dividing a number that has whole blocks of 'k' units in front. */
  lemma DivBlock(q: int, k: int, u: int, r: int)
    requires u > 0
    ensures (q * (k * u) + r) / u == q * k + r / u
  {
    assert q * (k * u) + r == (q * k + r / u) * u + r % u;
    DivUnique(q * (k * u) + r, u, q * k + r / u, r % u);
  }

  lemma ModBlock(q: int, k: int, m: int, b: int)
    requires m > 0
    ensures (q * (k * m) + b) % m == b % m
  {
    DivBlock(q, k, m, b);
    DivUnique(q * (k * m) + b, m, q * k + b / m, b % m);
  }

  lemma DivBelow(x: int, y: int, u: int)
    requires u > 0 && x + u <= y
    ensures x / u < y / u
  {
    DivUnique(x + u, u, x / u + 1, x % u);
    DivMono(x + u, y, u);
  }

  lemma DivMono(x: int, y: int, u: int)
    requires u > 0 && x <= y
    ensures x / u <= y / u
  {
    Apart(x / u, y / u, u);
    assert x == x / u * u + x % u && y == y / u * u + y % u;
  }

  lemma Apart(a: int, b: int, u: int)
    requires u > 0
    ensures a > b ==> a * u >= b * u + u
  {
    if a > b {
      assert (a - b - 1) * u >= 0;
      assert a * u == (a - b - 1) * u + b * u + u;
    }
  }
}
