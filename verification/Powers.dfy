/** Powers of two, for shifts and masks written as arithmetic. */
module Powers {
  function Pow2(n: nat): (p: nat)
    ensures p > 0
  {
    if n == 0 then 1 else 2 * Pow2(n - 1)
  }

  function Shl(x: nat, n: nat): nat { x * Pow2(n) }

  function Shr(x: nat, n: nat): nat {
    var p := Pow2(n);
    NoDebt(x, p);
    x / p
  }

  lemma NoDebt(x: nat, p: nat)
    requires p > 0
    ensures x / p >= 0
  {}

  /** The low n bits. */
  function Low(x: nat, n: nat): nat { x % Pow2(n) }

  lemma Split(x: nat, n: nat)
    ensures x == Shl(Shr(x, n), n) + Low(x, n) && Low(x, n) < Pow2(n)
  {}

  /** The parts of a number, read off a sum. */
  lemma Parts(x: nat, q: nat, r: nat, n: nat)
    requires x == Shl(q, n) + r && r < Pow2(n)
    ensures Shr(x, n) == q && Low(x, n) == r
  {
    Divide(x, q, r, Pow2(n));
  }

  lemma ShlAdd(x: nat, a: nat, b: nat)
    ensures Shl(Shl(x, a), b) == Shl(x, a + b)
  {
    PowAdd(a, b);
    var p, q := Pow2(a), Pow2(b);
    assert (x * p) * q == x * (p * q);
  }

  lemma ShlSum(x: nat, y: nat, n: nat)
    ensures Shl(x + y, n) == Shl(x, n) + Shl(y, n)
  {}

  lemma ShlLess(x: nat, m: nat, n: nat)
    requires x < Pow2(m)
    ensures Shl(x, n) + Pow2(n) <= Pow2(m + n)
  {
    PowAdd(m, n);
    MulLess(x, Pow2(m), Pow2(n));
  }

  lemma ShrLess(x: nat, m: nat, n: nat)
    requires x < Pow2(m + n)
    ensures Shr(x, n) < Pow2(m)
  {
    PowAdd(m, n);
    Split(x, n);
    var q, p, k := Shr(x, n), Pow2(n), Pow2(m);
    if q > k { MulLess(k, q, p); }
  }

  lemma ShlCancel(x: nat, y: nat, n: nat)
    requires Shl(x, n) == Shl(y, n)
    ensures x == y
  {
    Cancel(x, y, Pow2(n));
  }

  lemma {:induction false} PowAdd(a: nat, b: nat)
    ensures Pow2(a + b) == Pow2(a) * Pow2(b)
  {
    if a > 0 {
      PowAdd(a - 1, b);
      var x, y := Pow2(a - 1), Pow2(b);
      assert 2 * (x * y) == (2 * x) * y;
    }
  }

  lemma {:induction false} PowMore(a: nat, b: nat)
    requires a <= b
    ensures Pow2(a) <= Pow2(b)
  {
    if a < b { PowMore(a, b - 1); }
  }

  /** q is the quotient and r the remainder, if they fit. */
  lemma Divide(x: nat, q: nat, r: nat, m: nat)
    requires m > 0 && x == q * m + r && r < m
    ensures x / m == q && x % m == r
  {
    var q', r' := x / m, x % m;
    assert x == q' * m + r';
    if q' > q {
      assert (q' - q) * m >= m by { MulGrows(q' - q, m); }
    } else if q > q' {
      assert (q - q') * m >= m by { MulGrows(q - q', m); }
    }
  }

  lemma MulGrows(a: nat, m: nat)
    requires a >= 1
    ensures a * m >= m
  {}

  /** A product of smaller factors is smaller. */
  lemma MulLess(a: nat, b: nat, m: nat)
    requires a < b && m > 0
    ensures a * m + m <= b * m && a * m < b * m
  {
    assert (b - a) * m >= m by { MulGrows(b - a, m); }
    assert b * m == a * m + (b - a) * m;
  }

  lemma Cancel(a: nat, b: nat, m: nat)
    requires m > 0 && a * m == b * m
    ensures a == b
  {
    if a < b { MulLess(a, b, m); } else if b < a { MulLess(b, a, m); }
  }
}
