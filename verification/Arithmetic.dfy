/** Multiplication and division facts the solver needs spelled out. */
module Arithmetic {

  function Min(a: int, b: int): (m: int)
    ensures a >= 0 && b >= 0 ==> m >= 0
  {
    if a < b then a else b
  }

  function CeilDiv(n: int, d: int): (q: int)
    requires d > 0
    ensures n >= 0 ==> q >= 0
  {
    (n + d - 1) / d
  }

  lemma MulMono(m: int, n: int, d: int)
    requires m <= n && d >= 0
    ensures m * d <= n * d
  {
  }

  lemma MulStep(m: int, d: int)
    ensures (m + 1) * d == m * d + d && (m - 1) * d == m * d - d
  {
  }

  lemma MulLess(m: int, n: int, d: nat)
    requires m * d < n * d
    ensures m < n
  {
  }

  lemma Distribute(a: int, b: int, n: int)
    ensures (a + b) * n == a * n + b * n
  {
  }

  /** Quotient and remainder are the only ones there are. */
  lemma DivUnique(q: nat, d: nat, r: nat)
    requires r < d
    ensures (q * d + r) / d == q && (q * d + r) % d == r
  {
    var x := q * d + r;
    assert x == x / d * d + x % d;
    if x / d < q {
      MulMono(x / d + 1, q, d);
      MulStep(x / d, d);
    } else if x / d > q {
      MulMono(q + 1, x / d, d);
      MulStep(q, d);
    }
  }

  lemma DivIs(x: nat, q: nat, d: nat, r: nat)
    requires x == q * d + r && r < d
    ensures x / d == q && x % d == r
  {
    DivUnique(q, d, r);
  }

  lemma DivStep(n: nat, d: nat)
    requires d > 0
    ensures (n + 1) / d == n / d + (if n % d == d - 1 then 1 else 0)
    ensures (n + 1) % d == if n % d == d - 1 then 0 else n % d + 1
  {
    var q, r := n / d, n % d;
    assert n == q * d + r;
    MulStep(q, d);
    if r == d - 1 {
      DivUnique(q + 1, d, 0);
    } else {
      DivUnique(q, d, r + 1);
    }
  }

  lemma CeilDivBounds(m: nat, n: nat)
    requires n > 0 && m > 0
    ensures 1 <= CeilDiv(m, n) <= m
  {
    var c := CeilDiv(m, n);
    assert m + n - 1 == c * n + (m + n - 1) % n;
    MulMono(1, n, m);
    MulStep(m, n);
    MulStep(c, n);
    MulLess(c, m + 1, n);
    MulLess(1, c + 1, n);
  }
}
