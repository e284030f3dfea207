/** Division facts for the ticket and page arithmetic. */
module Division {
  lemma MulGrows(k: int, n: int)
    requires k >= 1 && n > 0
    ensures k * n >= n
  {
  }

  lemma Distribute(a: int, b: int, n: int)
    ensures (a - b) * n == a * n - b * n
  {
  }

  lemma DivModUnique(a: int, q: int, r: int, n: int)
    requires 0 <= r < n && a == q * n + r
    ensures a / n == q && a % n == r
  {
    var q' := a / n;
    var r' := a % n;
    assert a == q' * n + r';
    Distribute(q, q', n);
    Distribute(q', q, n);
    if q > q' { MulGrows(q - q', n); }
    if q < q' { MulGrows(q' - q, n); }
  }

  lemma ModStep(a: nat, n: nat)
    requires n > 0
    ensures (a + n) % n == a % n && (a + n) / n == a / n + 1
  {
    assert (a / n + 1) * n == a / n * n + n;
    assert a == a / n * n + a % n;
    DivModUnique(a + n, a / n + 1, a % n, n);
  }
}
