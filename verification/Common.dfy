/** What several modules need. */
module Common {

  datatype Option<+T> = None | Some(value: T)

  function Min(a: int, b: int): int { if a < b then a else b }

  function Max(a: int, b: int): int { if a > b then a else b }

  /** Division, by repeated subtraction. */
  function Quotient(n: nat, d: nat): nat
    requires d > 0
  {
    if n < d then 0 else 1 + Quotient(n - d, d)
  }

  lemma {:induction false} QuotientIsDivision(n: nat, d: nat)
    requires d > 0
    ensures Quotient(n, d) == n / d
  {
    if n >= d {
      QuotientIsDivision(n - d, d);
      assert n / d == (n - d) / d + 1 by {
        OneMore((n - d) / d, d);
        DivisionIs(n, d, (n - d) / d + 1, (n - d) % d);
      }
    }
  }

  lemma MultipleAtLeast(k: int, m: nat)
    requires k >= 1
    ensures k * m >= m
  {
  }

  lemma DifferenceOfMultiples(k: int, q: int, m: int)
    ensures (k - q) * m == k * m - q * m
  {
  }

  lemma DivisionFits(n: nat, m: nat)
    requires m > 0
    ensures (n / m) * m <= n < (n / m) * m + m
  {
  }

  /** A multiple that is at most `n` is one of at most the quotient. */
  lemma DivisionIsAtLeast(q: nat, m: nat, n: nat)
    requires m > 0 && q * m <= n
    ensures q <= n / m
  {
    var k := n / m;
    DivisionFits(n, m);
    if k < q {
      MultipleAtLeast(q - k, m);
      DifferenceOfMultiples(q, k, m);
      assert false;
    }
  }

  lemma DivisionIs(n: nat, m: nat, q: nat, r: nat)
    requires m > 0 && n == q * m + r && r < m
    ensures n / m == q
  {
    var k := n / m;
    DivisionFits(n, m);
    DivisionIsAtLeast(q, m, n);
    if q < k {
      MultipleAtLeast(k - q, m);
      DifferenceOfMultiples(k, q, m);
      assert false;
    }
  }

  lemma OneMore(k: int, m: int)
    ensures (k + 1) * m == k * m + m
  {
  }
}
