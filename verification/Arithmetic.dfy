/** Facts about division, remainders and products that the solver needs spelled out. */
module Arithmetic {

  lemma Division(a: int, n: int)
    requires n > 0
    ensures a == n * (a / n) + a % n && 0 <= a % n < n
    ensures a >= n ==> a / n >= 1
  {
  }

  lemma Multiples(x: int, n: int)
    requires n > 0
    ensures x >= 1 ==> x * n >= n
    ensures x <= -1 ==> x * n <= -n
  {
  }

  /** Quotient and remainder are the only ones. */
  lemma DivisionIsUnique(q: int, r: int, n: int)
    requires 0 <= r < n
    ensures (q * n + r) / n == q && (q * n + r) % n == r
  {
    var a := q * n + r;
    Division(a, n);
    Multiples(a / n - q, n);
    assert (a / n - q) * n == r - a % n;
  }

  lemma SumOfMultiples(a: int, b: int, n: int)
    requires n > 0 && a % n == 0 && b % n == 0
    ensures (a + b) % n == 0
  {
    Division(a, n);
    Division(b, n);
    assert a + b == (a / n + b / n) * n + 0;
    DivisionIsUnique(a / n + b / n, 0, n);
  }

  lemma QuotientIsNat(a: int, n: int)
    requires a >= 0 && n > 0
    ensures a / n >= 0
  {
  }

  /** Comparing a quotient is comparing products. */
  lemma Quotient(a: real, n: real, x: real)
    requires n > 0.0
    ensures a / n <= x <==> a <= x * n
    ensures x <= a / n <==> x * n <= a
  {
    var q := a / n;
    assert q * n == a;
    if q < x {
      assert (x - q) * n > 0.0;
    } else if q > x {
      assert (q - x) * n > 0.0;
    }
  }

  function Pow2(k: nat): (p: nat)
    ensures p > 0
  {
    if k == 0 then 1 else 2 * Pow2(k - 1)
  }

  lemma {:induction false} Pow2Sum(j: nat, k: nat)
    ensures Pow2(j + k) == Pow2(j) * Pow2(k)
  {
    if j > 0 {
      Pow2Sum(j - 1, k);
    }
  }
}
