/** Digit strings, and what the digit generation is for: decimals in a rounding interval. */
module Decimals {
  function Pow10(n: nat): (r: nat)
    ensures r > 0
  {
    if n == 0 then 1 else 10 * Pow10(n - 1)
  }

  lemma {:induction false} Pow10Add(m: nat, n: nat)
    ensures Pow10(m + n) == Pow10(m) * Pow10(n)
  {
    if m > 0 {
      Pow10Add(m - 1, n);
      assert 10 * (Pow10(m - 1) * Pow10(n)) == (10 * Pow10(m - 1)) * Pow10(n);
    }
  }

  lemma {:induction false} Pow10Monotone(m: nat, n: nat)
    requires m <= n
    ensures Pow10(m) <= Pow10(n)
  {
    if m < n { Pow10Monotone(m, n - 1); }
  }

  // ---- Digit strings ------------------------------------------------------

  type Digit = d: nat | d <= 9

  /** The number that a string of digits denotes. */
  function Number(s: seq<Digit>): nat {
    if s == [] then 0 else 10 * Number(s[..|s| - 1]) + s[|s| - 1]
  }

  lemma NumberSnoc(s: seq<Digit>, d: Digit)
    ensures Number(s + [d]) == 10 * Number(s) + d
  {
    assert (s + [d])[..|s|] == s;
  }

  lemma {:induction false} NumberBound(s: seq<Digit>)
    ensures Number(s) < Pow10(|s|)
  {
    if s != [] { NumberBound(s[..|s| - 1]); }
  }

  /** Neither a leading nor a trailing zero. */
  predicate Canonical(s: seq<Digit>) {
    s != [] && s[0] != 0 && s[|s| - 1] != 0
  }

  // ---- Rounding intervals -------------------------------------------------

  /** The decimal `x` with `f` fraction digits lies in the interval from `(b - lo) / s`
      to `(b + hi) / s`, which holds its end points when the mantissa is even. */
  predicate InInterval(even: bool, b: nat, s: nat, lo: nat, hi: nat, x: nat, f: nat) {
    var p := Pow10(f);
    if even then p * (b - lo) <= x * s <= p * (b + hi) else p * (b - lo) < x * s < p * (b + hi)
  }

  function Abs(d: int): int {
    if d < 0 then -d else d
  }

  /** The decimal is closer to `b / s` than to `v / s`, or as close when the mantissa is even. */
  predicate Prefers(even: bool, b: nat, s: nat, v: int, x: nat, f: nat) {
    var here, there := Abs(x * s - Pow10(f) * b), Abs(x * s - Pow10(f) * v);
    here < there || (even && here == there)
  }

  lemma PrefersOver(even: bool, b: nat, s: nat, lo: nat, hi: nat, v: int, x: nat, f: nat)
    requires 0 < lo && 0 < hi && (v <= b - 2 * lo || b + 2 * hi <= v)
    requires InInterval(even, b, s, lo, hi, x, f)
    ensures Prefers(even, b, s, v, x, f)
  {
    var p := Pow10(f);
    if v <= b - 2 * lo { Scale(p, v, b - 2 * lo); } else { Scale(p, b + 2 * hi, v); }
    Spread(p, b, lo, hi);
    hide Pow10;
  }

  lemma Spread(p: nat, b: nat, lo: nat, hi: nat)
    requires 0 < p && 0 < lo && 0 < hi
    ensures p * (b - lo) == p * b - p * lo && p * (b + hi) == p * b + p * hi && p * lo > 0 && p * hi > 0
    ensures p * (b - 2 * lo) == p * b - 2 * (p * lo) && p * (b + 2 * hi) == p * b + 2 * (p * hi)
  {
  }

  /** When the neighbours of a double lie twice `lo` below and twice `hi` above it, the
      decimals of the interval are those that are read as this double by rounding to the
      nearest, ties to even. */
  lemma IntervalMeans(even: bool, b: nat, s: nat, lo: nat, hi: nat, x: nat, f: nat)
    requires 0 < lo && 0 < hi
    ensures InInterval(even, b, s, lo, hi, x, f) <==>
              forall v: int | v <= b - 2 * lo || b + 2 * hi <= v :: Prefers(even, b, s, v, x, f)
  {
    if InInterval(even, b, s, lo, hi, x, f) {
      forall v: int | v <= b - 2 * lo || b + 2 * hi <= v
        ensures Prefers(even, b, s, v, x, f)
      {
        PrefersOver(even, b, s, lo, hi, v, x, f);
      }
    }
    if Prefers(even, b, s, b - 2 * lo, x, f) && Prefers(even, b, s, b + 2 * hi, x, f) {
      Spread(Pow10(f), b, lo, hi);
      hide Pow10;
    }
  }

  /** The decimal lies in the interval and none with fewer fraction digits does. */
  ghost predicate Shortest(even: bool, b: nat, s: nat, lo: nat, hi: nat, x: nat, f: nat) {
    && InInterval(even, b, s, lo, hi, x, f)
    && NoneShorter(even, b, s, lo, hi, f)
  }

  ghost predicate NoneShorter(even: bool, b: nat, s: nat, lo: nat, hi: nat, f: nat) {
    forall g: nat, y: nat :: g < f ==> !InInterval(even, b, s, lo, hi, y, g)
  }

  /** How far the decimal is from `b / s`, in units of `1 / (s * Pow10(f))`. */
  function Gap(b: nat, s: nat, x: nat, f: nat): nat {
    var d := x * s - Pow10(f) * b;
    if d < 0 then -d else d
  }

  /** No decimal of the interval with as many fraction digits is closer to `b / s`. */
  ghost predicate Closest(even: bool, b: nat, s: nat, lo: nat, hi: nat, x: nat, f: nat) {
    forall y: nat :: InInterval(even, b, s, lo, hi, y, f) ==> Gap(b, s, x, f) <= Gap(b, s, y, f)
  }

  /** A decimal stays in the interval when a zero is appended. */
  lemma AppendZero(even: bool, b: nat, s: nat, lo: nat, hi: nat, x: nat, f: nat)
    ensures InInterval(even, b, s, lo, hi, x, f) <==> InInterval(even, b, s, lo, hi, 10 * x, f + 1)
  {
    var p, l, h := Pow10(f), b - lo, b + hi;
    assert Pow10(f + 1) == 10 * p;
    assert (10 * p) * l == 10 * (p * l) && (10 * p) * h == 10 * (p * h) && (10 * x) * s == 10 * (x * s);
  }

  lemma {:induction false} AppendZeros(even: bool, b: nat, s: nat, lo: nat, hi: nat, x: nat, f: nat, n: nat)
    requires InInterval(even, b, s, lo, hi, x, f)
    ensures InInterval(even, b, s, lo, hi, x * Pow10(n), f + n)
    decreases n
  {
    if n == 0 {
      assert x * Pow10(0) == x;
    } else {
      AppendZero(even, b, s, lo, hi, x, f);
      AppendZeros(even, b, s, lo, hi, 10 * x, f + 1, n - 1);
      assert (10 * x) * Pow10(n - 1) == x * Pow10(n);
    }
  }

  /** The result of shortest conversion has the fewest digits: no decimal with fewer
      significant digits lies in the interval, whatever its magnitude. */
  lemma FewerDigitsMiss(even: bool, b: nat, s: nat, lo: nat, hi: nat, x: nat, f: nat, y: nat, g: nat)
    requires 0 < s <= b && 0 < hi && Shortest(even, b, s, lo, hi, x, f)
    requires 0 < y < Pow10(f)
    ensures !InInterval(even, b, s, lo, hi, y, g)
  {
    if g >= f {
      LowEndAtLeastOne(even, b, s, lo, hi, f);
      Pow10Monotone(f, g);
      hide InInterval, Shortest, NoneShorter, Pow10;
      SmallMisses(even, b, s, lo, hi, y, g);
    }
  }

  lemma GapScaled(b: nat, s: nat, y: nat, g: nat, n: nat)
    ensures Gap(b, s, y * Pow10(n), g + n) == Gap(b, s, y, g) * Pow10(n)
  {
    Pow10Add(g, n);
    var p, q := Pow10(g), Pow10(n);
    hide Pow10;
    assert (y * q) * s == (y * s) * q && (p * q) * b == (p * b) * q;
    assert (y * s) * q - (p * b) * q == (y * s - p * b) * q;
    if y * s - p * b < 0 {
      assert (p * b - y * s) * q == -((y * s - p * b) * q);
      Scale(q, 0, p * b - y * s);
    } else {
      Scale(q, 0, y * s - p * b);
    }
  }

  /** Nor is any decimal with as many significant digits, whatever its magnitude. */
  lemma ClosestOfItsLength(even: bool, b: nat, s: nat, lo: nat, hi: nat, x: nat, f: nat, y: nat, g: nat)
    requires 0 < s <= b && 0 < hi && NoneShorter(even, b, s, lo, hi, f) && Closest(even, b, s, lo, hi, x, f)
    requires 0 < y < Pow10(f + 1) && InInterval(even, b, s, lo, hi, y, g)
    ensures Gap(b, s, x, f) * Pow10(g) <= Gap(b, s, y, g) * Pow10(f)
  {
    if g <= f {
      AppendZeros(even, b, s, lo, hi, y, g, f - g);
      GapScaled(b, s, y, g, f - g);
      Pow10Add(g, f - g);
      var a, c, p, q := Gap(b, s, x, f), Gap(b, s, y, g), Pow10(g), Pow10(f - g);
      hide *;
      assert a <= c * q;
      Scale(p, a, c * q);
      assert p * (c * q) == c * (p * q);
    } else {
      Pow10Monotone(f + 1, g);
      if f > 0 {
        LowEndAtLeastOne(even, b, s, lo, hi, f);
        SmallMisses(even, b, s, lo, hi, y, g);
      } else {
        BelowOne(even, b, s, lo, hi, x, y, g);
      }
    }
  }

  /** A decimal below one is further away than the digit one. */
  lemma BelowOne(even: bool, b: nat, s: nat, lo: nat, hi: nat, x: nat, y: nat, g: nat)
    requires 0 < s <= b && 0 < hi && Closest(even, b, s, lo, hi, x, 0)
    requires y < Pow10(g) && InInterval(even, b, s, lo, hi, y, g)
    ensures Gap(b, s, x, 0) * Pow10(g) <= Gap(b, s, y, g) * Pow10(0)
  {
    OneIsInside(even, b, s, lo, hi, y, g);
    assert Pow10(0) == 1;
    hide Pow10, InInterval;
    assert Gap(b, s, x, 0) <= Gap(b, s, 1, 0) == b - s;
    hide Closest;
    StrictScale(y, Pow10(g), s);
    Distance(Pow10(g), b, s, y * s, Gap(b, s, x, 0));
  }

  lemma OneIsInside(even: bool, b: nat, s: nat, lo: nat, hi: nat, y: nat, g: nat)
    requires 0 < s <= b && 0 < hi && y < Pow10(g) && InInterval(even, b, s, lo, hi, y, g)
    ensures InInterval(even, b, s, lo, hi, 1, 0)
  {
    if b - lo >= s { SmallMisses(even, b, s, lo, hi, y, g); }
  }

  lemma Distance(p: nat, b: nat, s: nat, z: nat, a: nat)
    requires a <= b - s && z < p * s
    ensures a * p <= p * b - z && z <= p * b
  {
    Scale(p, a, b - s);
    assert p * (b - s) == p * b - p * s;
  }

  lemma LowEndAtLeastOne(even: bool, b: nat, s: nat, lo: nat, hi: nat, f: nat)
    requires 0 < s <= b && 0 < hi && 0 < f && NoneShorter(even, b, s, lo, hi, f)
    ensures s <= b - lo
  {
    assert !InInterval(even, b, s, lo, hi, 1, 0);
    var q := b / s;
    assert !InInterval(even, b, s, lo, hi, q, 0);
    assert Pow10(0) == 1;
    assert b == s * q + b % s && q >= 1;
    assert q * s == s * q;
    assert s * q >= s;
  }

  lemma Scale(p: nat, x: int, y: int)
    requires x <= y
    ensures p * x <= p * y
  {
  }

  lemma StrictScale(x: int, y: int, s: nat)
    requires x < y && 0 < s
    ensures x * s < y * s
  {
  }

  lemma SmallMisses(even: bool, b: nat, s: nat, lo: nat, hi: nat, y: nat, g: nat)
    requires 0 < s <= b - lo && y < Pow10(g)
    ensures !InInterval(even, b, s, lo, hi, y, g)
  {
    var p := Pow10(g);
    Scale(p, s, b - lo);
    StrictScale(y, p, s);
    hide Pow10;
  }

  // ---- Rounding to a number of digits -------------------------------------

  /** `x / y` rounded to an integer, ties to even. */
  function RoundHalfEven(x: nat, y: nat): nat
    requires 0 < y
  {
    var q, r := x / y, x % y;
    if 2 * r > y || (2 * r == y && q % 2 == 1) then q + 1 else q
  }

  lemma NextMultiple(a: int, b: int, y: nat)
    requires a < b
    ensures a * y + y <= b * y
  {
    assert (b - a - 1) * y >= 0;
    assert (b - a - 1) * y == b * y - a * y - y;
  }

  /** It is a nearest integer, and of two the even one. */
  lemma HalfEvenIsNearest(x: nat, y: nat, m: int)
    requires 0 < y && m != RoundHalfEven(x, y)
    ensures var n := RoundHalfEven(x, y);
            && Abs(n * y - x) <= Abs(m * y - x)
            && (Abs(n * y - x) == Abs(m * y - x) ==> n % 2 == 0)
  {
    var q, r := x / y, x % y;
    Nearest(x, y, q, r, RoundHalfEven(x, y), m);
  }

  lemma Nearest(x: nat, y: nat, q: nat, r: nat, n: nat, m: int)
    requires x == y * q + r && r < y && m != n
    requires n == if 2 * r > y || (2 * r == y && q % 2 == 1) then q + 1 else q
    ensures Abs(n * y - x) <= Abs(m * y - x)
    ensures Abs(n * y - x) == Abs(m * y - x) ==> n % 2 == 0
  {
    var low, at, up := q * y, m * y, (q + 1) * y;
    assert low == x - r && up == low + y;
    if m < q {
      NextMultiple(m, q, y);
    } else if q + 1 < m {
      NextMultiple(q + 1, m, y);
    }
    Nearer(x, y, q, r, n, m, low, at, up);
  }

  lemma Nearer(x: nat, y: nat, q: nat, r: nat, n: nat, m: int, low: int, at: int, up: int)
    requires low == x - r && up == low + y && r < y && m != n
    requires n == if 2 * r > y || (2 * r == y && q % 2 == 1) then q + 1 else q
    requires m == q ==> at == low
    requires m == q + 1 ==> at == up
    requires m < q ==> at + y <= low
    requires q + 1 < m ==> up + y <= at
    ensures var here := if n == q then low else up;
            && Abs(here - x) <= Abs(at - x)
            && (Abs(here - x) == Abs(at - x) ==> n % 2 == 0)
  {
  }
}
