/** The shortest digits of a double are always the closest ones.

    The program sets up the operands so that `S` is a product of powers of two and five and
    `b` is `2 * m * mhi` for the mantissa `m`, because `mhi` is half a unit of the last
    place (`src/jso_dg_dtoa.c`, lines 4110-4220). */
module DoubleDigits {
  import opened Words
  import opened PowersOfFive
  import opened Decimals
  import opened DigitGeneration

  /** Operands of a double with mantissa `m`. */
  ghost predicate FromDouble(m: nat, B: nat, S: nat, L: nat, H: nat) {
    B == 2 * m * H && L <= H && exists p: nat, q: nat :: S == Pow2(p) * Pow5(q)
  }

  lemma HalfOrFifth(prime: nat, x: int, k: int)
    requires prime == 13 || prime == 17
    ensures 2 * x == prime * k ==> exists n :: x == prime * n
    ensures 5 * x == prime * k ==> exists n :: x == prime * n
  {
    if prime == 13 {
      assert 2 * x == 13 * k ==> x == 13 * (7 * k - x);
      assert 5 * x == 13 * k ==> x == 13 * (8 * k - 3 * x);
    } else {
      assert 2 * x == 17 * k ==> x == 17 * (9 * k - x);
      assert 5 * x == 17 * k ==> x == 17 * (7 * k - 2 * x);
    }
  }

  /** No other prime divides a product of powers of two and five. */
  lemma {:induction false} OtherPrime(prime: nat, p: nat, q: nat, k: int)
    requires prime == 13 || prime == 17
    ensures Pow2(p) * Pow5(q) != prime * k
    decreases p + q
  {
    if p > 0 {
      var x := Pow2(p - 1) * Pow5(q);
      assert Pow2(p) * Pow5(q) == 2 * x;
      HalfOrFifth(prime, x, k);
      forall n ensures x != prime * n { OtherPrime(prime, p - 1, q, n); }
    } else if q > 0 {
      var x := Pow2(p) * Pow5(q - 1);
      assert Pow2(p) * Pow5(q) == 5 * x;
      HalfOrFifth(prime, x, k);
      forall n ensures x != prime * n { OtherPrime(prime, p, q - 1, n); }
    } else {
      assert Pow2(0) == 1 && Pow5(0) == 1;
    }
  }

  lemma TenTimesPowers(p: nat, q: nat)
    ensures 10 * (Pow2(p) * Pow5(q)) == Pow2(p + 1) * Pow5(q + 1)
  {
    assert (2 * Pow2(p)) * (5 * Pow5(q)) == 10 * (Pow2(p) * Pow5(q));
  }

  /** A quotient between 9 and 9.5 half a unit below 10 has a mantissa between 5 and 9. */
  lemma SmallMantissa(m: nat, B: nat, S: nat, L: nat, H: nat, words: nat)
    requires B == 2 * m * H && AwkwardNine(m % 2 == 0, B, S, L, H, words)
    ensures (2 * m + 1) * H == 10 * S && (m == 6 || m == 8)
  {
    assert (2 * m + 1) * H == 2 * m * H + H;
    assert 20 * (2 * m * H) < 19 * ((2 * m + 1) * H);
    assert 10 * (2 * m * H) >= 9 * ((2 * m + 1) * H);
    if m >= 10 { Scale(H, 2 * m + 1 + 19, 20 * 2 * m - 19 * 2 * m); }
  }

  /** The awkward case of the loop does not occur. */
  lemma NeverAwkward(m: nat, B: nat, S: nat, L: nat, H: nat, words: nat)
    requires FromDouble(m, B, S, L, H)
    ensures !AwkwardNine(m % 2 == 0, B, S, L, H, words)
  {
    if AwkwardNine(m % 2 == 0, B, S, L, H, words) {
      SmallMantissa(m, B, S, L, H, words);
      var p: nat, q: nat :| S == Pow2(p) * Pow5(q);
      TenTimesPowers(p, q);
      OtherPrime(2 * m + 1, p + 1, q + 1, H);
      assert false;
    }
  }

  /** What the loop chooses for a double is the closest decimal of its length. */
  lemma DoublesGetTheClosest(m: nat, B: nat, S: nat, L: nat, H: nat, words: nat, x: nat, f: nat)
    requires FromDouble(m, B, S, L, H) && Chosen(m % 2 == 0, B, S, L, H, words, x, f)
    ensures Closest(m % 2 == 0, B, S, L, H, x, f)
  {
    NeverAwkward(m, B, S, L, H, words);
    hide Closest, AwkwardNine;
  }

  /** Rounding to the nearest, ties to even, reads the decimal `x` with `f` fraction digits
      as this double: the others lie at least twice `L` below or twice `H` above it. */
  ghost predicate ReadAs(even: bool, B: nat, S: nat, L: nat, H: nat, x: nat, f: nat) {
    forall v: int | v <= B - 2 * L || B + 2 * H <= v :: Prefers(even, B, S, v, x, f)
  }

  /** The shortest digits are read back as the double that they come from, and no decimal
      with fewer digits is, whatever its magnitude. */
  lemma ShortestReadsBack(m: nat, B: nat, S: nat, L: nat, H: nat, x: nat, f: nat, y: nat, g: nat)
    requires FromDouble(m, B, S, L, H) && 0 < L && 0 < S <= B
    requires Shortest(m % 2 == 0, B, S, L, H, x, f)
    ensures ReadAs(m % 2 == 0, B, S, L, H, x, f)
    ensures 0 < y < Pow10(f) ==> !ReadAs(m % 2 == 0, B, S, L, H, y, g)
  {
    IntervalMeans(m % 2 == 0, B, S, L, H, x, f);
    IntervalMeans(m % 2 == 0, B, S, L, H, y, g);
    if 0 < y < Pow10(f) { FewerDigitsMiss(m % 2 == 0, B, S, L, H, x, f, y, g); }
    hide InInterval, Prefers, Pow10, NoneShorter;
  }

  /** Integers that no double leads to: 37/4 with the interval from 9 to 10 becomes 10. */
  lemma AwkwardExample()
    ensures AwkwardNine(true, 37, 4, 1, 3, 1)
    ensures Shortest(true, 37, 4, 1, 3, 10, 0) && !Closest(true, 37, 4, 1, 3, 10, 0)
    ensures forall words, x :: Chosen(true, 37, 4, 1, 3, words, x, 0) ==> !Closest(true, 37, 4, 1, 3, x, 0)
  {
    assert Pow10(0) == 1;
    assert InInterval(true, 37, 4, 1, 3, 9, 0);
    assert Gap(37, 4, 9, 0) == 1 && Gap(37, 4, 10, 0) == 3;
  }
}
