// Facts about products, quotients and remainders that the solver needs spelled out.
module Arithmetic {
  lemma ProductPositive(a: nat, b: nat)
    requires a > 0 && b > 0
    ensures a * b > 0
  {
  }

  lemma MulMonotone(a: nat, b: nat, c: nat)
    requires a <= b && c > 0
    ensures a * c <= b * c
    ensures a < b ==> a * c < b * c
  {
  }

  lemma DistributeMinus(a: int, b: int, c: int)
    ensures (a - b) * c == a * c - b * c
  {
  }

  lemma {:induction false} ProductStep(d: nat, a: nat, b: nat)
    requires a < b
    ensures d * a + d <= d * b
  {
    assert d * b == d * (b - 1) + d;
    if a < b - 1 { ProductStep(d, a, b - 1); }
  }

  lemma DivModIdentity(n: nat, d: nat)
    requires d > 0
    ensures n == d * (n / d) + n % d
  {
  }

  lemma DivModUnique(n: nat, d: nat, q: nat, r: nat)
    requires n == r + d * q && r < d
    ensures n / d == q && n % d == r
  {
    DivModIdentity(n, d);
    var q' := n / d;
    if q < q' { ProductStep(d, q, q'); }
    if q' < q { ProductStep(d, q', q); }
  }

  lemma SmallMod(x: int, m: nat)
    requires 0 <= x < m
    ensures x % m == x
  {
  }

  lemma NegativeMod(x: int, m: nat)
    requires -(m as int) < x < 0
    ensures x % m == x + m
  {
    assert x == -1 * m + (x + m);
  }

  lemma ModOnce(x: nat, m: nat)
    requires x < m
    ensures (m + x) % m == x
  {
    DivModUnique(m + x, m, 1, x);
  }
}
