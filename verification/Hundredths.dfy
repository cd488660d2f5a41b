/** Numbers of hundredths as doubles: h / 100 multiplied by a hundred again is not always h. */
module Hundredths {
  import opened Arithmetic
  import opened Doubles

  /** h / 100 */
  function Hundredth(h: nat): (d: Double)
    ensures d.m >= 0
  {
    Rounded(h, 100)
  }

  /** rate * 100 */
  function TimesHundred(rate: Double): (d: Double)
    requires rate.m >= 0
    ensures d.m >= 0
  {
    Rounded(100 * rate.m, Pow2(rate.j))
  }

  /** floor(rate * 100) */
  function Fixed(rate: Double): nat
    requires rate.m >= 0
  {
    FloorOf(TimesHundred(rate))
  }

  /** The numerator of h / 100, scaled up to what the 53 bits of the quotient are cut from. */
  function Scaled(h: nat): nat
    requires h > 0
  {
    h * Pow2(Scale(h, 100))
  }

  const TWO59: nat := 0x800_0000_0000_0000

  /** h / 100 is rounded down by more than the grid of the product can tell from h. */
  predicate Lost(h: nat) {
    h > 0 && Scaled(h) < TWO59 && 32 < Scaled(h) % 100 < 50
  }

  // ----- The quotient -----

  lemma ScaleOfHundredth(h: nat)
    requires 0 < h < 0x2000_0000_0000
    ensures Scale(h, 100) >= 7
    ensures TWO52 * 100 <= Scaled(h) < TWO53 * 100
    ensures Scaled(h) % 4 == 0
    ensures Pow2(Scale(h, 100)) >= 128
  {
    ScaleSpec(h, 100);
    var j := Scale(h, 100);
    if j < 7 {
      assert Pow2(j) <= 64 by {
        assert Pow2(6 - j) * Pow2(j) == Pow2(6) == 64 by {
          Pow2Sum(6 - j, j);
        }
        Multiples(Pow2(6 - j), Pow2(j));
      }
      LessTimes(Pow2(j), 64, h);
      assert false;
    }
    var p := Pow2(j - 7);
    Pow2Sum(7, j - 7);
    assert Pow2(7) == 128;
    FourDivides(h, p);
  }

  lemma FourDivides(h: nat, p: nat)
    ensures h * (128 * p) % 4 == 0
  {
    DivisionIsUnique(h * (32 * p), 0, 4);
    assert h * (128 * p) == h * (32 * p) * 4 + 0;
  }

  /** Half a hundred to either side. */
  lemma QuotientError(h: nat)
    requires 0 < h < 0x2000_0000_0000
    ensures var d := Hundredth(h); var n := Scaled(h);
            && d == Double(Nearest(n, 100), Scale(h, 100)) && TWO52 <= d.m <= TWO53
            && -50 <= n - 100 * d.m <= 50
            && (32 < n - 100 * d.m <==> 32 < n % 100 < 50)
  {
    ScaleOfHundredth(h);
    var n := Scaled(h);
    NearestBounds(n, 100, TWO52);
    NearestBounds(n, 100, TWO53);
    Division(n, 100);
    assert n % 100 != 50 by {
      assert n == 4 * (25 * (n / 100)) + n % 100;
    }
  }

  // ----- The product -----

  lemma ProductBounds(a: nat, step: nat, p: nat)
    requires p > 0 && TWO52 * step <= a < TWO53 * step
    ensures TWO52 * (step * p) <= a * p < TWO53 * (step * p)
    ensures a < TWO53 * (step * p)
  {
    LessTimes(TWO52 * step, a, p);
    LessTimes(a + 1, TWO53 * step, p);
    assert (a + 1) * p == a * p + p;
    Multiples(p, a + 1);
    assert (a + 1) * p == p * (a + 1);
  }

  /** The product of a 53-bit number is cut by six or seven bits. */
  lemma ProductIs(q: nat, j: nat, s: nat)
    requires s <= j && q > 0 && TWO52 * Pow2(s) <= 100 * q < TWO53 * Pow2(s)
    ensures Fixed(Double(q, j)) == Nearest(100 * q, Pow2(s)) / Pow2(j - s)
  {
    var a, p, step := 100 * q, Pow2(j - s), Pow2(s);
    Pow2Sum(s, j - s);
    ProductBounds(a, step, p);
    ScaleIs(a, step * p, j - s);
    NearestScaled(a, step, p);
    RoundedIs(a, Pow2(j), j - s);
  }

  lemma NearGrid(g: nat, step: nat, delta: int)
    requires step == 64 || step == 128
    requires -50 <= delta <= 50 && delta <= g * step && (step == 64 ==> g % 2 == 0)
    ensures Nearest(g * step - delta, step) ==
            if step == 64 && delta > 32 then g - 1 else if step == 64 && delta < -32 then g + 1 else g
  {
    if delta > 0 {
      assert g > 0;
      NearestIs(g * step - delta, step, g - 1, step - delta);
    } else {
      NearestIs(g * step - delta, step, g, -delta);
    }
  }

  lemma FloorNearGrid(h: nat, p: nat, off: int)
    requires h > 0 && p > 0 && -1 <= off <= 1 && (off == 1 ==> p > 1)
    ensures h * p + off >= 0 && (h * p + off) / p == if off < 0 then h - 1 else h
  {
    if off < 0 {
      assert h * p - 1 == (h - 1) * p + (p - 1);
      DivisionIsUnique(h - 1, p - 1, p);
    } else {
      DivisionIsUnique(h, off, p);
    }
  }

  lemma ProductFloor(h: nat, a: nat, j: nat, s: nat, delta: int)
    requires h > 0 && j >= 7 && (s == 6 || s == 7) && -50 <= delta <= 50 && h * Pow2(j) == a + delta
    ensures Nearest(a, Pow2(s)) / Pow2(j - s) == if s == 6 && delta > 32 then h - 1 else h
  {
    Pow2Sum(s, j - s);
    assert Pow2(6) == 64 && Pow2(7) == 128;
    assert s == 6 ==> Pow2(j - s) == 2 * Pow2(j - s - 1);
    FloorOfGrid(h, Pow2(s), Pow2(j - s), delta);
  }

  lemma FloorOfGrid(h: nat, step: nat, p: nat, delta: int)
    requires h > 0 && ((step == 64 && p % 2 == 0) || step == 128) && p > 0 && -50 <= delta <= 50
    requires delta <= h * (step * p)
    ensures Nearest(h * (step * p) - delta, step) / p == if step == 64 && delta > 32 then h - 1 else h
  {
    Regroup(h, step, p);
    NearGrid(h * p, step, delta);
    FloorNearGrid(h, p, if step == 64 && delta > 32 then -1 else if step == 64 && delta < -32 then 1 else 0);
  }

  lemma Regroup(h: nat, step: nat, p: nat)
    ensures h * p >= 0 && h * (step * p) == h * p * step
    ensures p % 2 == 0 ==> h * p % 2 == 0
  {
    if p % 2 == 0 {
      assert h * p == h * (p / 2) * 2 + 0;
      DivisionIsUnique(h * (p / 2), 0, 2);
    }
  }

  lemma SixOrSeven(q: nat) returns (s: nat)
    requires TWO52 <= q <= TWO53
    ensures s == if 100 * q < TWO59 then 6 else 7
    ensures TWO52 * Pow2(s) <= 100 * q < TWO53 * Pow2(s)
  {
    assert Pow2(6) == 64 && Pow2(7) == 128;
    s := if 100 * q < TWO59 then 6 else 7;
  }

  lemma FixedOf(h: nat, q: nat, j: nat, delta: int)
    requires h > 0 && j >= 7 && TWO52 <= q <= TWO53 && -50 <= delta <= 50 && h * Pow2(j) == 100 * q + delta
    ensures Fixed(Double(q, j)) == if 100 * q < TWO59 && delta > 32 then h - 1 else h
  {
    var s := SixOrSeven(q);
    ProductIs(q, j, s);
    ProductFloor(h, 100 * q, j, s, delta);
  }

  /** h / 100 * 100 is cut to h, except for the lost hundredths. */
  lemma FixedOfHundredth(h: nat)
    requires h < 0x2000_0000_0000
    ensures Fixed(Hundredth(h)) == if Lost(h) then h - 1 else h
  {
    if h > 0 {
      var q, j, delta := ErrorOf(h);
      FixedOf(h, q, j, delta);
    }
  }

  lemma ErrorOf(h: nat) returns (q: nat, j: nat, delta: int)
    requires 0 < h < 0x2000_0000_0000
    ensures Hundredth(h) == Double(q, j) && TWO52 <= q <= TWO53 && j >= 7
    ensures h * Pow2(j) == 100 * q + delta && -50 <= delta <= 50
    ensures Lost(h) <==> 100 * q < TWO59 && delta > 32
  {
    ScaleOfHundredth(h);
    QuotientError(h);
    q, j, delta := Hundredth(h).m, Scale(h, 100), Scaled(h) - 100 * Hundredth(h).m;
    SevenBits(Scaled(h), q);
  }

  lemma SevenBits(n: nat, q: nat)
    requires -50 <= n - 100 * q <= 50 && n % 100 != 50
    ensures 32 < n - 100 * q ==> (n < TWO59 <==> 100 * q < TWO59)
  {
  }

  // ----- Order -----

  /** Different hundredths are different doubles, in the same order. */
  lemma HundredthsIncrease(h: nat, h': nat)
    requires h < h' < 0x2000_0000_0000
    ensures Below(Hundredth(h), Hundredth(h'))
  {
    var q', j', delta' := ErrorOf(h');
    ScaleOfHundredth(h');
    if h > 0 {
      var q, j, delta := ErrorOf(h);
      ScaleOfHundredth(h);
      CrossProduct(h, h', Pow2(j), Pow2(j'), q, q', delta, delta');
    }
  }

  lemma CrossProduct(h: nat, h': nat, a: nat, b: nat, q: nat, q': nat, e: int, e': int)
    requires h < h' && a >= 128 && b >= 128 && -50 <= e <= 50 && -50 <= e' <= 50
    requires h * a == 100 * q + e && h' * b == 100 * q' + e'
    ensures q * b < q' * a
  {
    var ab := a * b;
    assert h * a * b == h * ab && h' * b * a == h' * ab;
    assert h' * ab - h * ab >= ab by {
      Multiples(h' - h, ab);
      assert (h' - h) * ab == h' * ab - h * ab;
    }
    assert (100 * q + e) * b == 100 * (q * b) + e * b;
    assert (100 * q' + e') * a == 100 * (q' * a) + e' * a;
    Slack(a, b, e, e');
  }

  lemma Slack(a: nat, b: nat, e: int, e': int)
    requires a >= 128 && b >= 128 && -50 <= e <= 50 && -50 <= e' <= 50
    ensures a * b + e * b - e' * a > 0
  {
    LessTimes(-50, e, b);
    LessTimes(e', 50, a);
    LessTimes(128, a, b);
    LessTimes(128, b, a);
  }
}
