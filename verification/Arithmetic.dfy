/** Facts about multiplication and division that the solver does not find by itself. */
module Arithmetic {

  lemma MulStep(d: nat, a: int, q: int)
    ensures a > q ==> d * a >= d * q + d
  {
    if a > q {
      MulUp(d, a, q);
    }
  }

  lemma MulUp(d: nat, a: int, q: int)
    requires a > q
    ensures d * a >= d * q + d
  {
    assert d * a == d * q + d + d * (a - q - 1);
  }

  lemma Divided(n: int, d: nat)
    requires d > 0
    ensures n == d * (n / d) + n % d && 0 <= n % d < d
  {
  }

  lemma SameQuotient(d: nat, a: int, b: nat, q: int, r: nat)
    requires d * a + b == d * q + r && b < d && r < d
    ensures a == q && b == r
  {
    MulStep(d, a, q);
    MulStep(d, q, a);
  }

  /** Quotient and remainder are the only ones that fit. */
  lemma Quotient(n: int, d: nat, q: int, r: nat)
    requires n == d * q + r && r < d
    ensures n / d == q && n % d == r
  {
    Divided(n, d);
    SameQuotient(d, n / d, n % d, q, r);
  }

  lemma BelowProduct(n: nat, d: nat, k: nat)
    requires n < d * k
    ensures d > 0 && n / d < k
  {
    Divided(n, d);
    MulStep(d, n / d + 1, k);
  }

  lemma DivMonotone(a: int, b: int, d: nat)
    requires a <= b && d > 0
    ensures a / d <= b / d
  {
    Divided(a, d);
    Divided(b, d);
    MulStep(d, a / d, b / d);
  }

  /** Quotient and remainder by repeated subtraction: bin and place of `n` in bins of size `d`. */
  function Bin(n: nat, d: nat): nat
    requires d > 0
  {
    if n < d then 0 else 1 + Bin(n - d, d)
  }

  function Place(n: nat, d: nat): (r: nat)
    requires d > 0
    ensures r < d
  {
    if n < d then n else Place(n - d, d)
  }

  lemma {:induction false} BinPlace(n: nat, d: nat)
    requires d > 0
    ensures n / d == Bin(n, d) && n % d == Place(n, d)
    decreases n
  {
    if n >= d {
      BinPlace(n - d, d);
      assert n / d == 1 + (n - d) / d && n % d == (n - d) % d by {
        assert n - d == d * ((n - d) / d) + (n - d) % d;
        Quotient(n, d, 1 + (n - d) / d, (n - d) % d);
      }
    } else {
      Quotient(n, d, 0, n);
    }
  }

  lemma BinMonotone(a: nat, b: nat, d: nat)
    requires d > 0 && a <= b
    ensures Bin(a, d) <= Bin(b, d)
  {
    BinPlace(a, d);
    BinPlace(b, d);
    DivMonotone(a, b, d);
  }
}
