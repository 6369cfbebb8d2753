/** Powers and the division facts that byte and bit extraction rely on. */
module Arith {

  function Pow2(k: nat): (p: nat)
    ensures p >= 1
  {
    if k == 0 then 1 else 2 * Pow2(k - 1)
  }

  function Pow256(k: nat): (p: nat)
    ensures p >= 1
  {
    if k == 0 then 1 else 256 * Pow256(k - 1)
  }

  /** Euclidean division has one quotient and one remainder. */
  lemma DivModUnique(v: int, m: int, q: int, r: int)
    requires m > 0 && 0 <= r < m && v == q * m + r
    ensures v / m == q && v % m == r
  {
    var q0, r0 := v / m, v % m;
    assert (q - q0) * m == r0 - r;
    MulAwayFromZero(q - q0, m);
  }

  lemma MulAwayFromZero(d: int, m: int)
    requires m > 0
    ensures d == 0 || d * m >= m || d * m <= -m
  {
    if d >= 1 {
      assert d * m == (d - 1) * m + m;
    } else if d <= -1 {
      assert d * m == (d + 1) * m - m;
    }
  }

  /** Dividing by `a * b` is dividing by `a`, then by `b`; the remainder by
      `a * b` is made of the remainder by `a` and the next digit in base `b`. */
  lemma DivModNested(x: int, a: int, b: int)
    requires x >= 0 && a > 0 && b > 0
    ensures x / (a * b) == (x / a) / b
    ensures x % (a * b) == ((x / a) % b) * a + x % a
  {
    var q1, r1 := x / a, x % a;
    var q2, r2 := q1 / b, q1 % b;
    assert x == q2 * (a * b) + (r2 * a + r1) by {
      assert x == q1 * a + r1;
      assert q1 == q2 * b + r2;
      assert q1 * a == (q2 * b + r2) * a == q2 * (a * b) + r2 * a;
    }
    assert 0 <= r2 * a + r1 < a * b by {
      NextDigitBound(r1, r2, b, a);
    }
    DivModUnique(x, a * b, q2, r2 * a + r1);
  }

  /** A digit below `b` after a number below `p`: the result stays below `b * p`. */
  lemma NextDigitBound(low: int, d: int, b: int, p: int)
    requires 0 <= low < p && 0 <= d < b
    ensures 0 <= low + d * p < b * p
  {
    assert (b - 1 - d) * p >= 0;
    assert b * p == d * p + (b - 1 - d) * p + p;
  }

  lemma {:induction false} Pow256Add(a: nat, b: nat)
    ensures Pow256(a + b) == Pow256(a) * Pow256(b)
  {
    if b > 0 {
      Pow256Add(a, b - 1);
      assert Pow256(a + b) == 256 * Pow256(a + b - 1);
      assert Pow256(a) * Pow256(b) == Pow256(a) * (256 * Pow256(b - 1)) == 256 * (Pow256(a) * Pow256(b - 1));
    }
  }

  /** Adding a multiple of `p` adds to the quotient and leaves the remainder. */
  lemma DivAddMultiple(x: int, k: int, p: int)
    requires x >= 0 && k >= 0 && p > 0
    ensures x / p >= 0
    ensures (x + k * p) / p == x / p + k && (x + k * p) % p == x % p
  {
    DivModUnique(x, p, x / p, x % p);
    MulAwayFromZero(x / p, p);
    assert x + k * p == (x / p + k) * p + x % p;
    DivModUnique(x + k * p, p, x / p + k, x % p);
  }
}
