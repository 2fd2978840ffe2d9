/** Quotients and remainders, which the solver decides more cheaply when it is given the quotient. */
module Division {

  lemma DivIs(x: int, n: nat, q: int, r: nat)
    requires x == n * q + r && r < n
    ensures x / n == q && x % n == r
  {
    var d := x / n - q;
    assert n * (x / n) + x % n == x;
    assert n * d == n * (x / n) - n * q;
    assert d >= 1 ==> n * d >= n;
    assert d <= -1 ==> n * d + n <= 0;
  }

  /** Numbers that differ by a multiple of `n` have the same remainder. */
  lemma SameMod(x: int, n: nat, k: int, y: int)
    requires n > 0 && x == n * k + y
    ensures x % n == y % n
  {
    assert n * (k + y / n) == n * k + n * (y / n);
    DivIs(x, n, k + y / n, y % n);
  }

  lemma QuotRem(x: nat, n: nat)
    requires n > 0
    ensures x == n * (x / n) + x % n && 0 <= x / n && 0 <= x % n < n
  {
  }

  lemma OneLess(p: int, n: int)
    ensures p * n == p * (n - 1) + p
  {
  }
}
