/** Being a multiple, as a whole quotient and as no remainder. */
module Multiples {
  import opened Schemas

  ghost predicate IsWhole(d: real, k: int) { d == k as real }

  /** The real numbers that the library takes for integers. */
  lemma IntegralMeans(d: real)
    ensures Integral(d) <==> exists k :: IsWhole(d, k)
  {
    if Integral(d) { assert IsWhole(d, d.Floor); }
  }

  lemma QuotientOf(x: real, m: real, k: real)
    requires m > 0.0
    ensures x / m == k <==> x == k * m
  {
  }

  lemma RemainderOf(x: int, n: nat, k: int)
    requires 0 < n && x == k * n
    ensures x % n == 0
  {
    var q, rest := x / n, x % n;
    assert x == n * q + rest;
    BetweenMultiples(k - q, n, rest);
  }

  lemma BetweenMultiples(d: int, n: nat, rest: int)
    requires 0 <= rest < n
    ensures d * n == rest ==> rest == 0
  {
    if d > 0 { assert d * n >= n; } else if d < 0 { assert d * n + n <= 0; }
  }

  lemma RealProduct(k: int, n: int)
    ensures (k * n) as real == k as real * n as real
  {
  }

  lemma WholeIsMultiple(x: real, n: nat, p: int)
    requires 0 < n && p % n == 0 && x == p as real
    ensures IsMultiple(x, n)
  {
  }

  lemma MultipleIs(x: real, n: nat) returns (k: int)
    requires IsMultiple(x, n)
    ensures x == (k * n) as real
  {
    k := x.Floor / n;
  }

  lemma WholeReal(x: real, k: int)
    requires x == k as real
    ensures Integral(x)
  {
  }

  /** A whole quotient by an integer leaves no remainder. */
  lemma WholeQuotient(x: real, m: real)
    requires Integral(m) && m > 0.0
    ensures IsMultiple(x, m.Floor) <==> Integral(x / m)
  {
    var n := m.Floor;
    assert m == n as real;
    if Integral(x / m) {
      var k := (x / m).Floor;
      QuotientOf(x, m, k as real);
      hide *;
      RealProduct(k, n);
      RemainderOf(k * n, n, k);
      WholeIsMultiple(x, n, k * n);
    }
    if IsMultiple(x, n) {
      hide *;
      var k := MultipleIs(x, n);
      RealProduct(k, n);
      QuotientOf(x, m, k as real);
      WholeReal(x / m, k);
    }
  }
}
