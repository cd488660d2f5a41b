/** Binary floating-point numbers as the rates of src/use_cases/ranking_usecase.ts use them: quotients
    and products of non-negative numbers, rounded to 53 bits, to nearest and ties to even. */
module Doubles {
  import opened Arithmetic

  /** m / 2^j */
  datatype Double = Double(m: int, j: nat)

  /** a < b */
  predicate Below(a: Double, b: Double) {
    a.m * Pow2(b.j) < b.m * Pow2(a.j)
  }

  const TWO52: nat := 0x10_0000_0000_0000
  const TWO53: nat := 0x20_0000_0000_0000

  // ----- Rounding to an integer -----

  function Nearest(a: nat, b: nat): (n: nat)
    requires b > 0
  {
    QuotientIsNat(a, b);
    if 2 * (a % b) < b || (2 * (a % b) == b && a / b % 2 == 0) then a / b else a / b + 1
  }

  lemma NearestIs(a: nat, b: nat, q: nat, r: nat)
    requires a == q * b + r && r < b
    ensures Nearest(a, b) == if 2 * r < b || (2 * r == b && q % 2 == 0) then q else q + 1
  {
    DivisionIsUnique(q, r, b);
  }

  /** No integer is nearer, and none is jumped over. */
  lemma NearestBounds(a: nat, b: nat, n: nat)
    requires b > 0
    ensures 2 * (Nearest(a, b) * b - a) <= b && 2 * (a - Nearest(a, b) * b) <= b
    ensures n * b <= a ==> n <= Nearest(a, b)
    ensures a <= n * b ==> Nearest(a, b) <= n
  {
    var q, r := a / b, a % b;
    Division(a, b);
    assert a == q * b + r;
    NearestIs(a, b, q, r);
    NextMultiple(q, b);
    NotBetween(a, b, q, r, n);
  }

  lemma NextMultiple(q: int, b: int)
    ensures (q + 1) * b == q * b + b
  {
  }

  lemma NotBetween(a: nat, b: nat, q: nat, r: nat, n: nat)
    requires a == q * b + r && r < b
    ensures n * b <= a ==> n <= q
    ensures a <= n * b ==> q <= n && (r > 0 ==> q + 1 <= n)
  {
    if n * b <= a {
      Multiples(n - q, b);
      assert (n - q) * b == n * b - q * b;
    }
    if a <= n * b {
      Multiples(q - n, b);
      assert (q - n) * b == q * b - n * b;
      if n == q {
        assert n * b == q * b;
      }
    }
  }

  lemma NearestScaled(a: nat, b: nat, k: nat)
    requires b > 0 && k > 0
    ensures b * k > 0 && Nearest(a * k, b * k) == Nearest(a, b)
  {
    var q, r := a / b, a % b;
    Division(a, b);
    ScaledDivision(q, r, b, k);
    NearestIs(a, b, q, r);
    NearestIs(a * k, b * k, q, r * k);
    Twice(r, b, k);
  }

  lemma ScaledDivision(q: nat, r: nat, b: nat, k: nat)
    requires r < b && k > 0
    ensures r * k < b * k && (b * q + r) * k == q * (b * k) + r * k
  {
    Multiples(b - r, k);
    assert (b - r) * k == b * k - r * k;
    assert b * q * k == q * (b * k);
    assert (b * q + r) * k == b * q * k + r * k;
  }

  lemma Twice(r: nat, b: nat, k: nat)
    requires k > 0
    ensures 2 * (r * k) < b * k <==> 2 * r < b
    ensures 2 * (r * k) == b * k <==> 2 * r == b
  {
    var d := b - 2 * r;
    assert b * k - 2 * (r * k) == d * k;
    Multiples(d, k);
  }

  // ----- Rounding to 53 bits -----

  /** How often a / b has to be doubled to reach 2^52. */
  function Scale(a: nat, b: nat): nat
    requires a > 0 && b > 0
    decreases if a >= TWO52 * b then 0 else TWO52 * b - a
  {
    if a >= TWO52 * b then 0 else 1 + Scale(2 * a, b)
  }

  lemma {:induction false} ScaleSpec(a: nat, b: nat)
    requires 0 < a < TWO53 * b && b > 0
    ensures TWO52 * b <= a * Pow2(Scale(a, b)) < TWO53 * b
    decreases if a >= TWO52 * b then 0 else TWO52 * b - a
  {
    if a < TWO52 * b {
      ScaleSpec(2 * a, b);
      var p := Pow2(Scale(2 * a, b));
      assert Pow2(Scale(a, b)) == 2 * p;
      assert 2 * a * p == a * (2 * p);
    }
  }

  lemma {:induction false} ScaleIs(a: nat, b: nat, j: nat)
    requires a > 0 && b > 0 && TWO52 * b <= a * Pow2(j) < TWO53 * b
    ensures Scale(a, b) == j
    decreases j
  {
    if j > 0 {
      var p := Pow2(j - 1);
      assert a * Pow2(j) == 2 * a * p;
      Multiples(p, 2 * a);
      ScaleIs(2 * a, b, j - 1);
    }
  }

  /** a / b rounded to the nearest double. Beyond 2^53 the grid is coarser than the integers. */
  function Rounded(a: nat, b: nat): (d: Double)
    requires b > 0
    ensures d.m >= 0
    decreases if a < TWO53 * b then 0 else a - TWO53 * b + 1
  {
    if a == 0 then Double(0, 0)
    else if a < TWO53 * b then Double(Nearest(a * Pow2(Scale(a, b)), b), Scale(a, b))
    else
      var d := Rounded(a, 2 * b);
      Double(2 * d.m, d.j)
  }

  function FloorOf(d: Double): nat
    requires d.m >= 0
  {
    QuotientIsNat(d.m, Pow2(d.j)); d.m / Pow2(d.j)
  }

  lemma RoundedIs(a: nat, b: nat, t: nat)
    requires 0 < a < TWO53 * b && b > 0 && Scale(a, b) == t
    ensures Rounded(a, b) == Double(Nearest(a * Pow2(t), b), t)
  {
  }

  lemma FloorOfNearest(a: nat, b: nat, n: nat, p: nat)
    requires b > 0 && p > 0
    ensures a / b <= Nearest(a * p, b) / p <= a / b + 1
    ensures a <= n * b ==> Nearest(a * p, b) / p <= n && Nearest(a * p, b) <= n * p
  {
    Division(a, b);
    var q := a / b;
    assert q * b <= a <= (q + 1) * b by {
      assert (q + 1) * b == b * q + b && q * b == b * q;
    }
    AtLeast(a, b, q, p);
    AtMost(a, b, q + 1, p);
    if a <= n * b {
      AtMost(a, b, n, p);
    }
  }

  /** Below 2^53 integers are doubles, so rounding jumps over none: the floor of the rounded number is
      the floor of the exact one, or one more if it was rounded up to an integer. */
  lemma FloorOfRounded(a: nat, b: nat, n: nat)
    requires b > 0 && a < TWO53 * b
    ensures a / b <= FloorOf(Rounded(a, b)) <= a / b + 1
    ensures a <= n * b ==> FloorOf(Rounded(a, b)) <= n && Rounded(a, b).m <= n * Pow2(Rounded(a, b).j)
  {
    if a > 0 {
      RoundedIs(a, b, Scale(a, b));
      FloorOfNearest(a, b, n, Pow2(Scale(a, b)));
    }
  }

  /** d == n */
  predicate IsWhole(d: Double, n: int) {
    d.m == n * Pow2(d.j)
  }

  /** The floor of a rounded number is one more than that of the exact one only if it was rounded up to
      a whole number. */
  lemma RoundedUpToWhole(a: nat, b: nat)
    requires b > 0 && a < TWO53 * b
    ensures var d := Rounded(a, b);
            FloorOf(d) == a / b || (FloorOf(d) == a / b + 1 && IsWhole(d, a / b + 1))
  {
    Division(a, b);
    var n := a / b + 1;
    assert n * b == b * (a / b) + b;
    FloorOfRounded(a, b, n);
    var d := Rounded(a, b);
    WholeIf(d.m, n, Pow2(d.j));
  }

  lemma WholeIf(m: nat, n: nat, p: nat)
    requires p > 0 && m <= n * p
    ensures m / p == n ==> m == n * p
  {
    Division(m, p);
    if m / p == n {
      assert p * (m / p) == n * p;
    }
  }

  lemma AtLeast(a: nat, b: nat, q: nat, p: nat)
    requires b > 0 && p > 0 && q * b <= a
    ensures q * p <= Nearest(a * p, b) && q <= Nearest(a * p, b) / p
  {
    assert q * p * b <= a * p by {
      assert q * p * b == q * b * p;
      LessTimes(q * b, a, p);
    }
    NearestBounds(a * p, b, q * p);
    QuotientAtLeast(Nearest(a * p, b), q, p);
  }

  lemma AtMost(a: nat, b: nat, n: nat, p: nat)
    requires b > 0 && p > 0 && a <= n * b
    ensures Nearest(a * p, b) <= n * p && Nearest(a * p, b) / p <= n
  {
    assert a * p <= n * p * b by {
      assert n * p * b == n * b * p;
      LessTimes(a, n * b, p);
    }
    NearestBounds(a * p, b, n * p);
    QuotientAtMost(Nearest(a * p, b), n, p);
  }

  lemma LessTimes(a: int, b: int, p: nat)
    requires a <= b
    ensures a * p <= b * p
  {
    assert (b - a) * p >= 0;
  }

  lemma QuotientAtLeast(m: nat, q: nat, p: nat)
    requires p > 0 && q * p <= m
    ensures q <= m / p
  {
    Division(m, p);
    Multiples(q - m / p, p);
    assert (q - m / p) * p == q * p - p * (m / p);
  }

  lemma QuotientAtMost(m: nat, n: nat, p: nat)
    requires p > 0 && m <= n * p
    ensures m / p <= n
  {
    Division(m, p);
    Multiples(m / p - n, p);
    assert (m / p - n) * p == p * (m / p) - n * p;
  }

  // ----- Random numbers -----

  /** k / 2^53 times n in doubles stays below n. */
  lemma ProductStaysBelow(k: nat, n: nat)
    requires k < TWO53 && 0 < n < TWO53
    ensures k * n < TWO53 * TWO53 && FloorOf(Rounded(k * n, TWO53)) < n
  {
    LessTimes(k, TWO53 - 1, n);
    var a := k * n;
    if a > 0 {
      var t := Scale(a, TWO53);
      ScaleSpec(a, TWO53);
      RoundedIs(a, TWO53, t);
      ScaledStaysBelow(k, n, a, Pow2(t));
    }
  }

  lemma ScaledStaysBelow(k: nat, n: nat, a: nat, p: nat)
    requires k < TWO53 && a == k * n && p > 0 && TWO52 * TWO53 <= a * p
    ensures Nearest(a * p, TWO53) / p < n
  {
    assert a * p == k * (n * p);
    LessTimes(k, TWO53 - 1, n * p);
    NearestBounds(a * p, TWO53, n * p);
    NotUpTo(Nearest(a * p, TWO53), n * p, a * p);
    QuotientBelow(Nearest(a * p, TWO53), n, p);
  }

  lemma NotUpTo(m: int, q: nat, x: nat)
    requires 2 * (m * TWO53 - x) <= TWO53 && TWO52 * TWO53 <= x <= (TWO53 - 1) * q
    ensures m < q
  {
  }

  lemma QuotientBelow(m: nat, n: nat, p: nat)
    requires p > 0 && m < n * p
    ensures m / p < n
  {
    QuotientAtMost(m, n, p);
    WholeIf(m, n, p);
  }
}
