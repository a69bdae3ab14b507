/** Division facts the solver does not find unaided. */
module Numbers {

  lemma MulAtLeast(d: int, m: int)
    requires m > 0
    ensures d >= 1 ==> d * m >= m
    ensures d <= -1 ==> d * m <= -m
  {
    if d >= 1 {
      assert (d - 1) * m >= 0;
    } else if d <= -1 {
      assert (-1 - d) * m >= 0;
    }
  }

  lemma MulMonotone(a: int, b: int, m: nat)
    requires a <= b
    ensures a * m <= b * m && m * a <= m * b
  {
    assert (b - a) * m >= 0;
  }

  lemma DivModUnique(a: int, q: int, r: int, m: int)
    requires m > 0 && 0 <= r < m && a == q * m + r
    ensures a / m == q && a % m == r
  {
    var d := a / m - q;
    assert d * m == r - a % m;
    MulAtLeast(d, m);
  }

  /** The digit of `a` above `p`, and what is below it, seen through the modulus `q * p`. */
  lemma DigitOfMod(a: nat, p: nat, q: nat)
    requires p > 0 && q > 0
    ensures q * p > 0
    ensures a % (q * p) / p == a / p % q
    ensures a % (q * p) % p == a % p
    ensures a / (q * p) == a / p / q
  {
    var b, e := a / p, a % p;
    var c, f := b / q, b % q;
    assert a == c * (q * p) + (f * p + e);
    assert f * p + e < q * p by {
      assert f * p <= (q - 1) * p;
    }
    DivModUnique(a, c, f * p + e, q * p);
    DivModUnique(f * p + e, f, e, p);
  }
}
