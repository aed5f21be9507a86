/** The integer digit loops of the binary-to-decimal conversion
    (`src/jso_dg_dtoa.c`, lines 4207-4355).

    `b / S` is the number to convert, at least 1 and less than 10; `mlo / S` and
    `mhi / S` are the distances to the ends of its rounding interval.  Digits are
    kept as numbers, the program stores them as characters from '0' on. */
module DigitGeneration {
  import opened Words
  import opened Bigints
  import opened BigintShifts
  import opened QuotientSteps
  import opened Decimals

  // ---- What the shortest loop knows ---------------------------------------

  /** Strictly below, except that the ends of an odd mantissa's interval do not count. */
  predicate Below(even: bool, x: int, y: int) {
    if even then x < y else x <= y
  }

  /** After `n` digits, which denote `d`: the remainder and the distances scaled by the
      power of ten, and no decimal with that many digits is in the interval. */
  ghost predicate Progress(even: bool, B: nat, S: nat, L: nat, H: nat, n: nat, d: nat, b: nat, lo: nat, hi: nat) {
    && 0 < S <= B < 10 * S && 0 < L && 0 < H
    && b == Pow10(n) * B - 10 * (d * S) && b < 10 * S
    && lo == Pow10(n) * L && hi == Pow10(n) * H
    && (n == 0 ==> d == 0)
    && (n > 0 ==> Below(even, lo, b) && Below(even, b + hi, 10 * S))
  }

  /** Whether the digit itself, or the next one, ends the decimal inside the interval. */
  predicate Near(even: bool, x: int, y: int) {
    if even then x <= y else x < y
  }

  lemma Truncated(even: bool, B: nat, S: nat, L: nat, H: nat, n: nat, d: nat, b: nat, lo: nat, hi: nat,
                  dig: nat, r: nat)
    requires Progress(even, B, S, L, H, n, d, b, lo, hi) && dig == b / S && r == b % S
    ensures r < S && dig <= 9 && lo > 0 && hi > 0
    ensures Pow10(n) * B == (10 * d + dig) * S + r
    ensures InInterval(even, B, S, L, H, 10 * d + dig, n) <==> Near(even, r, lo)
    ensures InInterval(even, B, S, L, H, 10 * d + dig + 1, n) <==> Near(even, S - r, hi)
  {
    var p, x := Pow10(n), 10 * d + dig;
    hide Pow10;
    assert b == S * dig + r;
    assert x * S == 10 * (d * S) + dig * S;
    assert p * B == x * S + r;
    assert (x + 1) * S == x * S + S;
    assert p * (B - L) == p * B - lo && p * (B + H) == p * B + hi;
    Scale(p, 1, L);
    Scale(p, 1, H);
    if dig >= 10 { Scale(S, 10, dig); }
  }

  /** With `n` digits written, no decimal with fewer than `n` fraction digits is in the interval. */
  lemma RulesOut(even: bool, B: nat, S: nat, L: nat, H: nat, n: nat, d: nat, b: nat, lo: nat, hi: nat, y: nat)
    requires Progress(even, B, S, L, H, n, d, b, lo, hi) && 0 < n
    ensures !InInterval(even, B, S, L, H, y, n - 1)
  {
    var p := Pow10(n - 1);
    assert Pow10(n) == 10 * p;
    hide Pow10;
    assert (10 * p) * B == 10 * (p * B) && (10 * p) * L == 10 * (p * L) && (10 * p) * H == 10 * (p * H);
    assert p * (B - L) == p * B - p * L && p * (B + H) == p * B + p * H;
    assert (d + 1) * S == d * S + S;
    if y <= d { Scale(S, y, d); } else { Scale(S, d + 1, y); }
    assert S * y == y * S && S * d == d * S && S * (d + 1) == (d + 1) * S;
  }

  lemma RulesOutAll(even: bool, B: nat, S: nat, L: nat, H: nat, n: nat, d: nat, b: nat, lo: nat, hi: nat)
    requires Progress(even, B, S, L, H, n, d, b, lo, hi)
    ensures NoneShorter(even, B, S, L, H, n)
  {
    hide Progress, InInterval, Pow10;
    forall g: nat, y: nat | g < n
      ensures !InInterval(even, B, S, L, H, y, g)
    {
      if InInterval(even, B, S, L, H, y, g) {
        AppendZeros(even, B, S, L, H, y, g, n - 1 - g);
        RulesOut(even, B, S, L, H, n, d, b, lo, hi, y * Pow10(n - 1 - g));
      }
    }
  }

  lemma TenTimesProduct(p: int, x: int, y: int)
    requires p * x == y
    ensures (10 * p) * x == 10 * y
  {
  }

  lemma ProgressNext(even: bool, B: nat, S: nat, L: nat, H: nat, n: nat, d: nat, b: nat, lo: nat, hi: nat,
                     dig: nat, r: nat)
    requires Progress(even, B, S, L, H, n, d, b, lo, hi) && dig == b / S && r == b % S
    requires Below(even, lo, r) && Below(even, r + hi, S)
    ensures Progress(even, B, S, L, H, n + 1, 10 * d + dig, 10 * r, 10 * lo, 10 * hi)
  {
    Truncated(even, B, S, L, H, n, d, b, lo, hi, dig, r);
    assert Pow10(n + 1) == 10 * Pow10(n);
    hide Pow10, InInterval;
    TenTimesProduct(Pow10(n), B, (10 * d + dig) * S + r);
    TenTimesProduct(Pow10(n), L, lo);
    TenTimesProduct(Pow10(n), H, hi);
  }

  // ---- One digit ----------------------------------------------------------

  /** How one pass of the loop ends: with another digit to come, with the digit or its
      successor as the last one, or with a 9 to be rounded up. */
  datatype Decision = Continue | Last(up: bool) | RoundNine

  /** The quotient digit and the remainder. */
  ghost predicate Split(b: nat, s: nat, dig: nat, r: nat)
    requires 0 < s
  {
    dig == b / s && r == b % s
  }

  ghost predicate Decided(even: bool, d: Decision, dig: nat, r: nat, s: nat, lo: nat, hi: nat) {
    match d
    case Continue => Below(even, lo, r) && Below(even, r + hi, s)
    case Last(up) => if up then dig < 9 && Near(even, s - r, hi) else Near(even, r, lo)
    case RoundNine => dig == 9 && Near(even, s - r, hi)
  }

  /** The chosen digit is the closer one when both are in the interval, except that the
      upper end of an even mantissa's interval rounds a 9 up in any case. */
  ghost predicate Fits(even: bool, d: Decision, r: nat, s: nat, lo: nat, hi: nat) {
    match d
    case Continue => true
    case Last(up) => if up then Near(even, r, lo) ==> s - r <= r else Near(even, s - r, hi) ==> r <= s - r
    case RoundNine => (Near(even, r, lo) ==> s - r <= r) || (even && r + hi == s)
  }

  /** The sign of `b - (S - mhi)`, as the loop computes it.  A remainder without words is
      below every difference, even the difference zero. */
  method CompareWithDelta(b: Bigint, S: Bigint, mhi: Bigint) returns (j1: int)
    requires b.Valid() && b.Normal() && S.Valid() && S.Normal() && mhi.Valid() && mhi.Normal()
    requires 0 < S.wds && 0 < mhi.wds
    ensures 0 < j1 ==> b.Value() + mhi.Value() > S.Value()
    ensures j1 == 0 ==> b.Value() + mhi.Value() == S.Value()
    ensures 0 < b.Value() ==> (j1 < 0 <==> b.Value() + mhi.Value() < S.Value())
    ensures b.wds == 0 ==> j1 != 0
    ensures 0 < b.wds && b.Value() == 0 && mhi.Value() == S.Value() ==> j1 == 0
  {
    hide Val, Radix, Pow2;
    WordsOf(b);
    var delta := Diff(S, mhi);
    if delta.sign {
      j1 := 1;
    } else {
      j1 := Cmp(b, delta);
    }
  }

  ghost predicate Pair(b: Bigint, S: Bigint)
    reads b, b.x, S, S.x
  {
    && b.Valid() && b.Normal() && S.Valid() && S.Normal() && b != S && b.x != S.x
    && FourZeroBits(S.x[..S.wds])
  }

  lemma TwiceValue()
    ensures Pow2(1) == 2
  {
  }

  /** Twice the remainder against the divisor. */
  method RoundsUp(b: Bigint, S: Bigint, dig: Digit) returns (up: bool)
    requires Pair(b, S) && 0 < b.Value() && 0 < S.Value()
    ensures up <==> 2 * b.Value() > S.Value() || (2 * b.Value() == S.Value() && dig % 2 == 1)
  {
    hide Val, Radix, Pow2;
    WordsOf(b);
    WordsOf(S);
    TwiceValue();
    var b1 := Lshift(b, 1);
    var j := Cmp(b1, S);
    up := j > 0 || (j == 0 && dig % 2 == 1);
  }

  /** One pass of the loop, up to the point where the digit is stored. */
  method Decide(b0: Bigint, S: Bigint, mlo: Bigint, mhi: Bigint, even: bool)
    returns (dig: Digit, decision: Decision, b: Bigint)
    requires b0.Valid() && b0.Normal() && S.Valid() && S.Normal() && mlo.Valid() && mlo.Normal()
    requires mhi.Valid() && mhi.Normal()
    requires b0 != S && b0.x != S.x && b0 != mlo && b0.x != mlo.x && b0 != mhi && b0.x != mhi.x
    requires FourZeroBits(S.x[..S.wds]) && 0 < S.Value() && b0.Value() < 10 * S.Value()
    requires 0 < mlo.Value() && 0 < mhi.Value()
    modifies b0, b0.x
    ensures var s := S.Value();
            var r := old(b0.Value()) % s;
            && Split(old(b0.Value()), s, dig, r)
            && (decision.Last? && decision.up ==> dig < 9)
            && Decided(even, decision, dig, r, s, mlo.Value(), mhi.Value())
            && (mlo.Value() <= mhi.Value() ==> Fits(even, decision, r, s, mlo.Value(), mhi.Value()))
            && (even && dig == 9 && r + mhi.Value() == s && (0 < r || 1 < S.wds) ==> decision == RoundNine)
            && (0 < old(b0.Value()) && r == 0 && S.wds == 1 ==> decision == Last(false))
            && (decision == Continue ==> b == b0 && b.Valid() && b.Normal() && b.Value() == r)
  {
    hide Val, Radix, Pow2, FourZeroBits;
    WordsOf(S);
    WordsOf(mlo);
    WordsOf(mhi);
    b := b0;
    dig := Quorem(b, S);
    WordsOf(b);
    ghost var r := b.Value();
    var j := Cmp(b, mlo);
    var j1 := CompareWithDelta(b, S, mhi);
    if j1 == 0 && even {
      if dig == 9 {
        decision := RoundNine;
      } else {
        decision := Last(j > 0);
      }
      return;
    }
    if j < 0 || (j == 0 && even) {
      decision := Last(false);
      if b.x[0] == 0 && b.wds <= 1 {
        return;
      }
      if j1 > 0 {
        var up := RoundsUp(b, S, dig);
        if up {
          decision := if dig == 9 then RoundNine else Last(true);
        }
      }
      return;
    }
    if j1 > 0 {
      decision := if dig == 9 then RoundNine else Last(true);
      return;
    }
    decision := Continue;
  }

  // ---- Rounding up --------------------------------------------------------

  /** From digit `p` on there are only nines. */
  ghost predicate NinesFrom(s: seq<Digit>, p: nat) {
    && p <= |s|
    && Number(s) + 1 == (Number(s[..p]) + 1) * Pow10(|s| - p)
    && forall j :: p <= j < |s| ==> s[j] == 9
  }

  lemma NinesMore(s: seq<Digit>, p: nat)
    requires 0 < p && NinesFrom(s, p) && s[p - 1] == 9
    ensures NinesFrom(s, p - 1)
  {
    var n := |s| - p;
    assert s[..p][..p - 1] == s[..p - 1];
    assert Number(s[..p]) == 10 * Number(s[..p - 1]) + 9;
    assert Pow10(n + 1) == 10 * Pow10(n);
    hide Number, Pow10;
    assert (10 * (Number(s[..p - 1]) + 1)) * Pow10(n) == (Number(s[..p - 1]) + 1) * (10 * Pow10(n));
  }

  /** The last digit that is not a nine goes up by one. */
  lemma NinesEnd(s: seq<Digit>, p: nat)
    requires 0 < p && NinesFrom(s, p) && s[p - 1] != 9
    ensures Number(s[..p - 1] + [s[p - 1] + 1]) * Pow10(|s| - p) == Number(s) + 1
  {
    NumberSnoc(s[..p - 1], s[p - 1] + 1);
    assert s[..p][..p - 1] == s[..p - 1];
    assert Number(s[..p]) == 10 * Number(s[..p - 1]) + s[p - 1];
  }

  /** `roundoff`: adds one unit to the last digit; when there are only nines the number
      becomes the next power of ten. */
  method Roundoff(s0: seq<Digit>, k0: int) returns (s: seq<Digit>, k: int)
    requires s0 != []
    ensures 1 <= |s| <= |s0| && s[|s| - 1] != 0 && (s0[0] != 0 ==> s[0] != 0)
    ensures k == k0 || k == k0 + 1
    ensures Number(s) * Pow10(|s0| - |s| + (k - k0)) == Number(s0) + 1
    ensures k == k0 + 1 <==> Number(s0) + 1 == Pow10(|s0|)
    ensures k == k0 + 1 ==> s == [1]
  {
    hide Pow10, Number;
    var p := |s0|;
    NinesStart(s0);
    NumberBound(s0);
    while true
      invariant 0 < p <= |s0| && NinesFrom(s0, p)
      decreases p
    {
      if s0[p - 1] != 9 {
        NinesEnd(s0, p);
        NotOnlyNines(s0, p);
        s, k := s0[..p - 1] + [s0[p - 1] + 1], k0;
        return;
      }
      NinesMore(s0, p);
      p := p - 1;
      if p == 0 {
        OnlyNines(s0);
        s, k := [1], k0 + 1;
        return;
      }
    }
  }

  lemma NinesStart(s: seq<Digit>)
    ensures NinesFrom(s, |s|)
  {
    assert s[..|s|] == s;
  }

  lemma OnlyNines(s: seq<Digit>)
    requires NinesFrom(s, 0)
    ensures Number(s) + 1 == Pow10(|s|) && Number([1]) == 1
  {
    assert s[..0] == [] && [1][..0] == [];
    assert Number([]) == 0;
  }

  lemma {:induction false} NotOnlyNines(s: seq<Digit>, p: nat)
    requires 0 < p && NinesFrom(s, p) && s[p - 1] != 9
    ensures Number(s) + 1 != Pow10(|s|)
  {
    var t := s[..p];
    assert t[..p - 1] == s[..p - 1];
    NumberBound(t[..p - 1]);
    assert Number(t) == 10 * Number(t[..p - 1]) + t[p - 1] && Pow10(p) == 10 * Pow10(p - 1);
    Pow10Add(p, |s| - p);
    hide Number, Pow10;
    assert Number(t) + 1 < Pow10(p);
    StrictScale(Number(t) + 1, Pow10(p), Pow10(|s| - p));
  }

  // ---- Shortest digits ----------------------------------------------------

  /** The last digit. */
  function LastDigit(dig: Digit, up: bool): (d: Digit)
    requires up ==> dig < 9
  {
    if up then dig + 1 else dig
  }

  /** An even mantissa between 9 and 9.5 whose interval ends at 10 and holds 9.  With a quotient
      of exactly 9 the remainder zero has a word only if the divisor has more than one. */
  predicate AwkwardNine(even: bool, B: nat, S: nat, L: nat, H: nat, words: nat) {
    && even && 9 * S <= B && 2 * B < 19 * S && B - L <= 9 * S && B + H == 10 * S
    && (9 * S < B || 1 < words)
  }

  /** The decimal is the closest of its length, except in the awkward case; the divisor has
      this number of words. */
  ghost predicate Chosen(even: bool, B: nat, S: nat, L: nat, H: nat, words: nat, x: nat, f: nat) {
    L <= H ==> (Closest(even, B, S, L, H, x, f) <==> !AwkwardNine(even, B, S, L, H, words))
  }

  lemma ClosestDigit(even: bool, B: nat, S: nat, L: nat, H: nat, n: nat, d: nat, b: nat, lo: nat, hi: nat,
                     dig: nat, r: nat, up: bool)
    requires Progress(even, B, S, L, H, n, d, b, lo, hi) && Split(b, S, dig, r)
    requires if up then Near(even, r, lo) ==> S - r <= r else Near(even, S - r, hi) ==> r <= S - r
    ensures Closest(even, B, S, L, H, if up then 10 * d + dig + 1 else 10 * d + dig, n)
  {
    Truncated(even, B, S, L, H, n, d, b, lo, hi, dig, r);
    var x := 10 * d + dig;
    assert 0 < L && 0 < H;
    hide Progress, Split, Pow10, InInterval, Gap, Near;
    forall y: nat | InInterval(even, B, S, L, H, y, n)
      ensures Gap(B, S, if up then x + 1 else x, n) <= Gap(B, S, y, n)
    {
      NoCloser(even, B, S, L, H, x, n, r, y, up);
    }
  }

  /** The neighbour that is taken, against any decimal of the interval. */
  lemma NoCloser(even: bool, B: nat, S: nat, L: nat, H: nat, x: nat, n: nat, r: nat, y: nat, up: bool)
    requires Pow10(n) * B == x * S + r && r < S && 0 < L && 0 < H && InInterval(even, B, S, L, H, y, n)
    requires up && InInterval(even, B, S, L, H, x, n) ==> S - r <= r
    requires !up && InInterval(even, B, S, L, H, x + 1, n) ==> r <= S - r
    ensures Gap(B, S, if up then x + 1 else x, n) <= Gap(B, S, y, n)
  {
    hide Pow10, InInterval, Gap;
    assert (x + 1) * S == x * S + S;
    if y <= x {
      Scale(S, y, x);
      assert S * y == y * S && S * x == x * S;
      OtherSide(even, B, S, L, H, y, x, n);
    } else {
      Scale(S, x + 1, y);
      assert S * y == y * S && S * (x + 1) == (x + 1) * S;
      OtherSide(even, B, S, L, H, y, x + 1, n);
    }
    Gaps(B, S, x, n, r, y, up);
  }

  /** Distances of the two neighbours, and of a decimal beyond them. */
  lemma Gaps(B: nat, S: nat, x: nat, n: nat, r: nat, y: nat, up: bool)
    requires Pow10(n) * B == x * S + r && r < S
    requires if y <= x then (up ==> S - r <= r) else (!up ==> r <= S - r)
    ensures Gap(B, S, if up then x + 1 else x, n) <= Gap(B, S, y, n)
  {
    hide Pow10;
    assert (x + 1) * S == x * S + S;
    if y <= x { Scale(S, y, x); } else { Scale(S, x + 1, y); }
  }

  /** A decimal between one of the interval and `B / S` is in the interval. */
  lemma OtherSide(even: bool, B: nat, S: nat, L: nat, H: nat, y: nat, x: nat, n: nat)
    requires InInterval(even, B, S, L, H, y, n) && 0 < L && 0 < H
    requires y * S <= x * S <= Pow10(n) * B || Pow10(n) * B <= x * S <= y * S
    ensures InInterval(even, B, S, L, H, x, n)
  {
    var p := Pow10(n);
    StrictScale(B - L, B, p);
    StrictScale(B, B + H, p);
    assert p * (B - L) == (B - L) * p && p * B == B * p && p * (B + H) == (B + H) * p;
    hide Pow10;
  }

  lemma ClosestLast(even: bool, B: nat, S: nat, L: nat, H: nat, words: nat, s: seq<Digit>, b: nat, lo: nat, hi: nat,
                    dig: Digit, r: nat, up: bool)
    requires Progress(even, B, S, L, H, |s|, Number(s), b, lo, hi) && Split(b, S, dig, r) && (up ==> dig < 9)
    requires lo <= hi ==> Fits(even, Last(up), r, S, lo, hi)
    requires s == [] ==> !(even && dig == 9 && r + hi == S && (0 < r || 1 < words))
    ensures Chosen(even, B, S, L, H, words, Number(s + [LastDigit(dig, up)]) * Pow10(0), |s|)
  {
    var n := |s|;
    TimesOne(Number(s + [LastDigit(dig, up)]));
    NumberSnoc(s, LastDigit(dig, up));
    hide Number;
    if L <= H {
      Scale(Pow10(n), L, H);
      ClosestDigit(even, B, S, L, H, n, Number(s), b, lo, hi, dig, r, up);
    }
    hide Closest;
    if AwkwardNine(even, B, S, L, H, words) {
      AwkwardFirst(even, B, S, L, H, words, n, Number(s), b, lo, hi, dig, r);
    }
  }

  /** In the awkward case the first digit is a 9 to be rounded up. */
  lemma AwkwardFirst(even: bool, B: nat, S: nat, L: nat, H: nat, words: nat, n: nat, d: nat, b: nat, lo: nat, hi: nat,
                     dig: nat, r: nat)
    requires Progress(even, B, S, L, H, n, d, b, lo, hi) && Split(b, S, dig, r)
    requires AwkwardNine(even, B, S, L, H, words)
    ensures n == 0 && dig == 9 && r + hi == S && (0 < r || 1 < words) && even
  {
    assert Pow10(0) == 1;
    if n > 0 {
      RulesOutAll(even, B, S, L, H, n, d, b, lo, hi);
      assert InInterval(even, B, S, L, H, 10, 0);
      assert false;
    }
    assert b == B && hi == H;
    assert b == S * dig + r;
    assert dig == 9 by { DivUnique(B, S, 9, B - 9 * S); }
  }

  lemma ClosestNine(even: bool, B: nat, S: nat, L: nat, H: nat, words: nat, d: nat, b: nat, lo: nat, hi: nat, r: nat)
    requires Progress(even, B, S, L, H, 0, d, b, lo, hi) && Split(b, S, 9, r)
    requires lo <= hi ==> Fits(even, RoundNine, r, S, lo, hi)
    requires 0 < r || words != 1
    requires 0 < words
    ensures Chosen(even, B, S, L, H, words, 10, 0)
  {
    assert Pow10(0) == 1;
    assert b == B && d == 0 && lo == L && hi == H;
    assert B == 9 * S + r;
    if L <= H && !AwkwardNine(even, B, S, L, H, words) {
      assert Near(even, r, lo) ==> S - r <= r;
      ClosestDigit(even, B, S, L, H, 0, d, b, lo, hi, 9, r, true);
    }
    if AwkwardNine(even, B, S, L, H, words) {
      assert InInterval(even, B, S, L, H, 9, 0);
      assert Gap(B, S, 9, 0) == r && Gap(B, S, 10, 0) == S - r;
    }
  }

  /** What the last pass leaves: the shortest decimal, with no zero at its end. */
  lemma FinishDigit(even: bool, B: nat, S: nat, L: nat, H: nat, s: seq<Digit>, b: nat, lo: nat, hi: nat,
                    dig: Digit, r: nat, up: bool)
    requires Progress(even, B, S, L, H, |s|, Number(s), b, lo, hi) && Split(b, S, dig, r)
    requires Decided(even, Last(up), dig, r, S, lo, hi) && (s != [] ==> s[0] != 0)
    ensures var t := s + [LastDigit(dig, up)];
            Canonical(t) && Shortest(even, B, S, L, H, Number(t) * Pow10(0), |s|)
  {
    hide InInterval, NoneShorter, Number, Progress;
    RulesOutAll(even, B, S, L, H, |s|, Number(s), b, lo, hi);
    Truncated(even, B, S, L, H, |s|, Number(s), b, lo, hi, dig, r);
    LeadingDigit(even, B, S, L, H, |s|, Number(s), b, lo, hi, dig, r);
    NumberSnoc(s, LastDigit(dig, up));
    TimesOne(Number(s + [LastDigit(dig, up)]));
  }

  lemma FinishNine(even: bool, B: nat, S: nat, L: nat, H: nat, s: seq<Digit>, b: nat, lo: nat, hi: nat,
                   dig: Digit, r: nat)
    requires Progress(even, B, S, L, H, |s|, Number(s), b, lo, hi) && Split(b, S, dig, r)
    requires Decided(even, RoundNine, dig, r, S, lo, hi)
    ensures s == [] && Shortest(even, B, S, L, H, 10, 0)
  {
    hide InInterval, Number, Progress;
    Truncated(even, B, S, L, H, |s|, Number(s), b, lo, hi, dig, r);
    NineIsFirst(even, B, S, L, H, |s|, Number(s), b, lo, hi, dig, r);
    NumberOfNone();
  }

  lemma NumberOfNone()
    ensures Number([]) == 0
  {
  }

  /** A zero digit is neither the first nor the last one. */
  lemma LeadingDigit(even: bool, B: nat, S: nat, L: nat, H: nat, n: nat, d: nat, b: nat, lo: nat, hi: nat,
                     dig: nat, r: nat)
    requires Progress(even, B, S, L, H, n, d, b, lo, hi) && Split(b, S, dig, r)
    ensures n == 0 ==> dig != 0
    ensures dig == 0 ==> !Near(even, r, lo)
  {
    assert Pow10(0) == 1;
    assert n == 0 ==> b == B;
    assert b == S * dig + r;
    assert dig == 0 ==> b == r;
  }

  /** Rounding up a 9 happens on the first digit only. */
  lemma NineIsFirst(even: bool, B: nat, S: nat, L: nat, H: nat, n: nat, d: nat, b: nat, lo: nat, hi: nat,
                    dig: nat, r: nat)
    requires Progress(even, B, S, L, H, n, d, b, lo, hi) && Split(b, S, dig, r)
    requires dig == 9 && Near(even, S - r, hi)
    ensures n == 0
  {
    assert b == S * dig + r;
  }

  /** Operands of the shortest loop; `mlo` and `mhi` may be the same number. */
  ghost predicate Operands(b: Bigint, S: Bigint, mlo: Bigint, mhi: Bigint)
    reads b, b.x, S, S.x, mlo, mlo.x, mhi, mhi.x
  {
    && b.Valid() && b.Normal() && S.Valid() && S.Normal() && mlo.Valid() && mlo.Normal() && mhi.Valid() && mhi.Normal()
    && b != S && b.x != S.x && b != mlo && b.x != mlo.x && b != mhi && b.x != mhi.x
    && S != mlo && S.x != mlo.x && S != mhi && S.x != mhi.x
    && (mlo == mhi || mlo.x != mhi.x)
    && FourZeroBits(S.x[..S.wds])
  }

  method TenTimes(b: Bigint) returns (r: Bigint)
    requires b.Valid() && b.Normal()
    modifies b, b.x
    ensures r.Valid() && r.Normal() && (r == b || (fresh(r) && fresh(r.x)))
    ensures r.Value() == 10 * old(b.Value())
  {
    hide Val, Pow2;
    r := Multadd(b, 10, 0);
  }

  /** The multiplications at the end of a pass. */
  method TenTimesAll(b0: Bigint, S: Bigint, mlo0: Bigint, mhi0: Bigint) returns (b: Bigint, mlo: Bigint, mhi: Bigint)
    requires Operands(b0, S, mlo0, mhi0)
    modifies b0, b0.x, mlo0, mlo0.x, mhi0, mhi0.x
    ensures Operands(b, S, mlo, mhi) && S.Value() == old(S.Value())
    ensures (b == b0 || (fresh(b) && fresh(b.x))) && (mlo == mlo0 || (fresh(mlo) && fresh(mlo.x)))
    ensures mhi == mhi0 || (fresh(mhi) && fresh(mhi.x))
    ensures b.Value() == 10 * old(b0.Value()) && mlo.Value() == 10 * old(mlo0.Value())
    ensures mhi.Value() == 10 * old(mhi0.Value())
  {
    hide Val, Pow2, FourZeroBits;
    b := TenTimes(b0);
    if mlo0 == mhi0 {
      mhi := TenTimes(mhi0);
      mlo := mhi;
    } else {
      mlo := TenTimes(mlo0);
      mhi := TenTimes(mhi0);
    }
  }

  /** The digits written so far and the operands that go with them. */
  ghost predicate Underway(even: bool, B: nat, D: nat, L: nat, H: nat, s: seq<Digit>,
                           b: Bigint, S: Bigint, mlo: Bigint, mhi: Bigint)
    reads b, b.x, S, S.x, mlo, mlo.x, mhi, mhi.x
  {
    && Operands(b, S, mlo, mhi) && S.Value() == D
    && (s != [] ==> s[0] != 0)
    && Progress(even, B, D, L, H, |s|, Number(s), b.Value(), mlo.Value(), mhi.Value())
  }

  /** The digits of the whole number, when the exponent has grown by `up`. */
  ghost predicate Finished(even: bool, B: nat, D: nat, L: nat, H: nat, words: nat, s: seq<Digit>, up: nat) {
    && Canonical(s) && (up == 0 || (up == 1 && s == [1]))
    && Shortest(even, B, D, L, H, Number(s) * Pow10(up), |s| - 1)
    && Chosen(even, B, D, L, H, words, Number(s) * Pow10(up), |s| - 1)
  }

  lemma FinishedLast(even: bool, B: nat, S: nat, L: nat, H: nat, words: nat, s: seq<Digit>, b: nat, lo: nat, hi: nat,
                     dig: Digit, r: nat, up: bool)
    requires Progress(even, B, S, L, H, |s|, Number(s), b, lo, hi) && Split(b, S, dig, r)
    requires Decided(even, Last(up), dig, r, S, lo, hi) && (s != [] ==> s[0] != 0)
    requires lo <= hi ==> Fits(even, Last(up), r, S, lo, hi)
    requires !(even && dig == 9 && r + hi == S && (0 < r || 1 < words))
    ensures Finished(even, B, S, L, H, words, s + [LastDigit(dig, up)], 0)
  {
    hide Progress, Split, Shortest, Number, Pow10, Fits, Chosen;
    FinishDigit(even, B, S, L, H, s, b, lo, hi, dig, r, up);
    ClosestLast(even, B, S, L, H, words, s, b, lo, hi, dig, r, up);
  }

  lemma FinishedNine(even: bool, B: nat, S: nat, L: nat, H: nat, words: nat, s: seq<Digit>, b: nat, lo: nat, hi: nat,
                     dig: Digit, r: nat, t: seq<Digit>)
    requires Progress(even, B, S, L, H, |s|, Number(s), b, lo, hi) && Split(b, S, dig, r)
    requires Decided(even, RoundNine, dig, r, S, lo, hi)
    requires lo <= hi ==> Fits(even, RoundNine, r, S, lo, hi)
    requires (0 < r || words != 1) && 0 < words
    requires t == [1] || Number([9]) + 1 != Pow10(1)
    ensures s == [] && t == [1] && Finished(even, B, S, L, H, words, t, 1) && Number([9]) + 1 == Pow10(1)
  {
    hide Progress, Split, Shortest, Number, Pow10, Fits, Chosen;
    FinishNine(even, B, S, L, H, s, b, lo, hi, dig, r);
    assert dig == 9;
    ClosestNine(even, B, S, L, H, words, Number(s), b, lo, hi, r);
    RoundedNine(t);
  }

  /** One pass of the loop of mode 0. */
  method Pass(b0: Bigint, S: Bigint, mlo0: Bigint, mhi0: Bigint, even: bool, s0: seq<Digit>,
              ghost B: nat, ghost D: nat, ghost L: nat, ghost H: nat)
    returns (s: seq<Digit>, up: nat, done: bool, b: Bigint, mlo: Bigint, mhi: Bigint)
    requires Underway(even, B, D, L, H, s0, b0, S, mlo0, mhi0)
    modifies b0, b0.x, mlo0, mlo0.x, mhi0, mhi0.x
    ensures done ==> Finished(even, B, D, L, H, S.wds, s, up)
    ensures !done ==> Underway(even, B, D, L, H, s, b, S, mlo, mhi)
    ensures !done ==> 0 < old(mlo0.Value()) < D && old(mlo0.Value()) < mlo.Value()
    ensures (b == b0 || (fresh(b) && fresh(b.x))) && (mlo == mlo0 || (fresh(mlo) && fresh(mlo.x)))
    ensures mhi == mhi0 || (fresh(mhi) && fresh(mhi.x))
  {
    hide Val, Radix, Pow2, Pow10, Number, Progress, FourZeroBits, Split, Decided, LastDigit, Finished, Fits;
    ghost var bv, lo, hi := b0.Value(), mlo0.Value(), mhi0.Value();
    ProgressBounds(even, B, D, L, H, |s0|, Number(s0), bv, lo, hi);
    ghost var r := bv % D;
    WordsOf(S);
    up, b, mlo, mhi := 0, b0, mlo0, mhi0;
    var dig, decision, rest := Decide(b0, S, mlo0, mhi0, even);
    match decision {
      case Last(up') =>
        FinishedLast(even, B, D, L, H, S.wds, s0, bv, lo, hi, dig, r, up');
        s, done := s0 + [LastDigit(dig, up')], true;
      case RoundNine =>
        // `NineIsFirst`: the 9 is the first digit, so that it is the whole buffer.
        s, up := Roundoff([9], 0);
        FinishedNine(even, B, D, L, H, S.wds, s0, bv, lo, hi, dig, r, s);
        done := true;
      case Continue =>
        Goes(even, B, D, L, H, s0, bv, lo, hi, dig, r);
        s, done := s0 + [dig], false;
        b, mlo, mhi := TenTimesAll(b0, S, mlo0, mhi0);
    }
  }

  /** The loop of mode 0, with `even` for a mantissa whose last bit is clear. */
  method ShortestDigits(b0: Bigint, S: Bigint, mlo0: Bigint, mhi0: Bigint, even: bool, k0: int)
    returns (s: seq<Digit>, k: int)
    requires Operands(b0, S, mlo0, mhi0)
    requires S.Value() <= b0.Value() < 10 * S.Value() && 0 < mlo0.Value() && 0 < mhi0.Value()
    modifies b0, b0.x, mlo0, mlo0.x, mhi0, mhi0.x
    ensures Canonical(s) && (k == k0 || (k == k0 + 1 && s == [1]))
    ensures Shortest(even, old(b0.Value()), old(S.Value()), old(mlo0.Value()), old(mhi0.Value()),
                     Number(s) * Pow10(k - k0), |s| - 1)
    ensures Chosen(even, old(b0.Value()), old(S.Value()), old(mlo0.Value()), old(mhi0.Value()), S.wds,
                   Number(s) * Pow10(k - k0), |s| - 1)
  {
    hide Val, Radix, Pow2, Pow10, Number, Progress, Shortest, Canonical, Chosen;
    ghost var B, D, L, H := b0.Value(), S.Value(), mlo0.Value(), mhi0.Value();
    var b, mlo, mhi, up, done := b0, mlo0, mhi0, 0, false;
    s := [];
    Starts(even, B, D, L, H);
    while !done
      invariant (b == b0 || (fresh(b) && fresh(b.x)))
      invariant (mlo == mlo0 || (fresh(mlo) && fresh(mlo.x))) && (mhi == mhi0 || (fresh(mhi) && fresh(mhi.x)))
      invariant if done then Finished(even, B, D, L, H, S.wds, s, up) else Underway(even, B, D, L, H, s, b, S, mlo, mhi)
      decreases !done, D - (if done then 0 else mlo.Value())
    {
      s, up, done, b, mlo, mhi := Pass(b, S, mlo, mhi, even, s, B, D, L, H);
    }
    k := k0 + up;
  }

  lemma Starts(even: bool, B: nat, S: nat, L: nat, H: nat)
    requires S <= B < 10 * S && 0 < L && 0 < H
    ensures Progress(even, B, S, L, H, 0, Number([]), B, L, H)
  {
    assert Pow10(0) == 1 && Number([]) == 0;
  }

  lemma ProgressBounds(even: bool, B: nat, S: nat, L: nat, H: nat, n: nat, d: nat, b: nat, lo: nat, hi: nat)
    requires Progress(even, B, S, L, H, n, d, b, lo, hi)
    ensures 0 < S && 0 < b < 10 * S && 0 < lo && 0 < hi
  {
    hide Pow10;
    Scale(Pow10(n), 1, L);
    Scale(Pow10(n), 1, H);
  }

  lemma TimesOne(x: nat)
    ensures x * Pow10(0) == x
  {
  }

  lemma RoundedNine(s: seq<Digit>)
    requires s == [1] || Number([9]) + 1 != Pow10(1)
    ensures s == [1] && Number(s) * Pow10(1) == 10 && Canonical(s) && Number([9]) + 1 == Pow10(1)
  {
    assert [9][..0] == [] && [1][..0] == [];
    assert Number([]) == 0 && Number([9]) == 9 && Number([1]) == 1 && Pow10(1) == 10;
  }

  lemma Goes(even: bool, B: nat, S: nat, L: nat, H: nat, s: seq<Digit>, b: nat, lo: nat, hi: nat, dig: Digit, r: nat)
    requires Progress(even, B, S, L, H, |s|, Number(s), b, lo, hi) && Split(b, S, dig, r)
    requires Decided(even, Continue, dig, r, S, lo, hi)
    ensures Progress(even, B, S, L, H, |s| + 1, Number(s + [dig]), 10 * r, 10 * lo, 10 * hi)
    ensures (s == [] ==> dig != 0) && lo < S && 0 < lo
  {
    hide Pow10;
    ProgressBounds(even, B, S, L, H, |s|, Number(s), b, lo, hi);
    LeadingDigit(even, B, S, L, H, |s|, Number(s), b, lo, hi, dig, r);
    NumberSnoc(s, dig);
    ProgressNext(even, B, S, L, H, |s|, Number(s), b, lo, hi, dig, r);
  }

  // ---- A fixed number of digits -------------------------------------------

  /** After `n` digits, which denote `d`, the remainder is `b`; it is not zero. */
  ghost predicate Counting(B: nat, S: nat, n: nat, d: nat, b: nat) {
    && 0 < S <= B < 10 * S && 0 < b < 10 * S
    && b == Pow10(n) * B - 10 * (d * S)
    && (n == 0 ==> d == 0)
  }

  /** The same with the next digit taken off. */
  ghost predicate Taken(B: nat, S: nat, n: nat, d: nat, r: nat) {
    0 < S && r < S && 0 < n && Pow10(n - 1) * B == d * S + r
  }

  lemma TakeDigitProduct(p: int, B: int, x: int, S: int, dig: int, r: int, b: int)
    requires b == p * B - 10 * (x * S) && b == S * dig + r
    ensures p * B == (10 * x + dig) * S + r
  {
    assert (10 * x + dig) * S == 10 * (x * S) + S * dig;
  }

  lemma TakeNumber(B: nat, S: nat, n: nat, x: nat, b: nat, dig: nat, r: nat)
    requires Counting(B, S, n, x, b) && Split(b, S, dig, r)
    ensures Taken(B, S, n + 1, 10 * x + dig, r)
    ensures (n == 0 ==> dig != 0) && (r == 0 ==> dig != 0)
    ensures r > 0 ==> Counting(B, S, n + 1, 10 * x + dig, 10 * r)
  {
    var p := Pow10(n);
    assert Pow10(0) == 1;
    assert Pow10(n + 1) == 10 * p;
    hide Pow10;
    assert b == S * dig + r;
    TakeDigitProduct(p, B, x, S, dig, r, b);
    TenTimesProduct(p, B, (10 * x + dig) * S + r);
    assert n == 0 ==> b == B;
  }

  lemma TakeDigit(B: nat, S: nat, s: seq<Digit>, b: nat, dig: Digit, r: nat)
    requires Counting(B, S, |s|, Number(s), b) && Split(b, S, dig, r) && (s != [] ==> s[0] != 0)
    ensures var t := s + [dig];
            && Taken(B, S, |t|, Number(t), r) && t[0] != 0
            && (r == 0 ==> dig != 0)
            && (r > 0 ==> Counting(B, S, |t|, Number(t), 10 * r))
  {
    hide *;
    TakeNumber(B, S, |s|, Number(s), b, dig, r);
    NumberSnoc(s, dig);
  }

  /** The digits, with `up` more in the exponent, are the number rounded to `ilim` digits. */
  ghost predicate Rounded(B: nat, S: nat, ilim: nat, s: seq<Digit>, up: nat) {
    && 0 < S && 0 < ilim && Canonical(s) && |s| <= ilim && up <= 1
    && var n := RoundHalfEven(B * Pow10(ilim - 1), S);
       && Number(s) * Pow10(ilim - |s| + up) == n
       && (up == 1 <==> n == Pow10(ilim))
  }

  lemma ExactProduct(p: int, B: int, d: int, S: int, n: int)
    requires p * B == d * S
    ensures B * (p * n) == S * (d * n)
  {
    assert B * (p * n) == (p * B) * n;
  }

  lemma RoundedExactly(B: nat, S: nat, ilim: nat, s: seq<Digit>)
    requires Taken(B, S, |s|, Number(s), 0) && |s| <= ilim && Canonical(s)
    ensures Rounded(B, S, ilim, s, 0)
  {
    var n, d := ilim - |s|, Number(s);
    Pow10Add(|s| - 1, n);
    Pow10Add(|s|, n);
    NumberBound(s);
    hide Pow10, Number, Canonical;
    ExactProduct(Pow10(|s| - 1), B, d, S, Pow10(n));
    DivUnique(B * Pow10(ilim - 1), S, d * Pow10(n), 0);
    StrictScale(d, Pow10(|s|), Pow10(n));
  }

  lemma {:induction false} NumberParity(s: seq<Digit>)
    requires s != []
    ensures Number(s) % 2 == s[|s| - 1] % 2
  {
  }

  /** Rounding looks at twice the remainder and, on a tie, at the last digit. */
  lemma RoundedBy(B: nat, S: nat, ilim: nat, s: seq<Digit>, r: nat)
    requires Taken(B, S, |s|, Number(s), r) && |s| == ilim
    ensures var up := 2 * r > S || (2 * r == S && s[|s| - 1] % 2 == 1);
            RoundHalfEven(B * Pow10(ilim - 1), S) == if up then Number(s) + 1 else Number(s)
  {
    NumberParity(s);
    hide Pow10, Number;
    assert B * Pow10(ilim - 1) == Pow10(ilim - 1) * B;
    assert Number(s) * S == S * Number(s);
    DivUnique(B * Pow10(ilim - 1), S, Number(s), r);
  }

  /** Drops trailing zeros. */
  method TrimZeros(s0: seq<Digit>) returns (s: seq<Digit>)
    requires s0 != [] && s0[0] != 0
    ensures Canonical(s) && |s| <= |s0|
    ensures Number(s) * Pow10(|s0| - |s|) == Number(s0)
  {
    hide Pow10, Number;
    s := s0;
    TimesOne(Number(s0));
    while s[|s| - 1] == 0
      invariant 0 < |s| <= |s0| && s[0] != 0
      invariant Number(s) * Pow10(|s0| - |s|) == Number(s0)
      decreases |s|
    {
      DropZero(s, |s0| - |s|);
      s := s[..|s| - 1];
    }
  }

  lemma DropZero(s: seq<Digit>, n: nat)
    requires s != [] && s[|s| - 1] == 0
    ensures Number(s[..|s| - 1]) * Pow10(n + 1) == Number(s) * Pow10(n)
  {
    var x := Number(s[..|s| - 1]);
    assert (10 * x) * Pow10(n) == x * (10 * Pow10(n));
  }

  /** The loop for a given number of digits, and the rounding of the last one. */
  method FixedDigits(b0: Bigint, S: Bigint, ilim: nat, k0: int) returns (s: seq<Digit>, k: int)
    requires Pair(b0, S) && S.Value() <= b0.Value() < 10 * S.Value() && 0 < ilim
    modifies b0, b0.x
    ensures k == k0 || k == k0 + 1
    ensures Rounded(old(b0.Value()), old(S.Value()), ilim, s, k - k0)
  {
    hide Val, Radix, Pow2, Pow10, Number, FourZeroBits, Counting, Taken, Split, Rounded, RoundHalfEven;
    ghost var B, D := b0.Value(), S.Value();
    var b := b0;
    s, k := [], k0;
    CountingStarts(B, D);
    var dig: Digit := 0;
    while true
      invariant Pair(b, S) && S.Value() == D && (b == b0 || (fresh(b) && fresh(b.x)))
      invariant |s| < ilim && (s != [] ==> s[0] != 0) && k == k0
      invariant Counting(B, D, |s|, Number(s), b.Value())
      decreases ilim - |s|
    {
      ghost var before, bv := s, b.Value();
      CountingBounds(B, D, |s|, Number(s), bv);
      dig := Quorem(b, S);
      WordsOf(b);
      DigitTaken(B, D, s, bv, dig, b.Value());
      s := s + [dig];
      if b.x[0] == 0 && b.wds <= 1 {
        RoundedExactly(B, D, ilim, s);
        return;
      }
      if |s| >= ilim {
        break;
      }
      b := TenTimes(b);
    }
    ghost var r := b.Value();
    var up := RoundsUp(b, S, dig);
    RoundedBy(B, D, ilim, s, r);
    ghost var t := s;
    if up {
      s, k := Roundoff(s, k0);
      RoundedUp(B, D, ilim, t, s, k - k0);
    } else {
      s := TrimZeros(s);
      RoundedDown(B, D, ilim, t, s);
    }
  }

  lemma CountingStarts(B: nat, S: nat)
    requires S <= B < 10 * S
    ensures Counting(B, S, 0, Number([]), B)
  {
    assert Pow10(0) == 1 && Number([]) == 0;
  }

  lemma CountingBounds(B: nat, S: nat, n: nat, d: nat, b: nat)
    requires Counting(B, S, n, d, b)
    ensures 0 < S && b < 10 * S
  {
  }

  lemma DigitTaken(B: nat, S: nat, s: seq<Digit>, b: nat, dig: Digit, r: nat)
    requires Counting(B, S, |s|, Number(s), b) && dig == b / S && r == b % S && (s != [] ==> s[0] != 0)
    ensures var t := s + [dig];
            && Taken(B, S, |t|, Number(t), r) && t[0] != 0
            && (r == 0 ==> Canonical(t))
            && (r > 0 ==> Counting(B, S, |t|, Number(t), 10 * r))
  {
    hide Number, Pow10;
    TakeDigit(B, S, s, b, dig, r);
  }

  lemma RoundedUp(B: nat, S: nat, ilim: nat, t: seq<Digit>, s: seq<Digit>, up: int)
    requires 0 < S && |t| == ilim && 0 < ilim && RoundHalfEven(B * Pow10(ilim - 1), S) == Number(t) + 1
    requires Canonical(s) && |s| <= ilim && 0 <= up <= 1
    requires Number(s) * Pow10(ilim - |s| + up) == Number(t) + 1 && (up == 1 <==> Number(t) + 1 == Pow10(ilim))
    ensures Rounded(B, S, ilim, s, up)
  {
  }

  lemma RoundedDown(B: nat, S: nat, ilim: nat, t: seq<Digit>, s: seq<Digit>)
    requires 0 < S && |t| == ilim && 0 < ilim && RoundHalfEven(B * Pow10(ilim - 1), S) == Number(t)
    requires Canonical(s) && |s| <= ilim && Number(s) * Pow10(ilim - |s|) == Number(t)
    ensures Rounded(B, S, ilim, s, 0)
  {
    NumberBound(t);
  }

  // ---- Scaling before the loops -------------------------------------------

  /** A normalised number of this magnitude has four leading zero bits. */
  lemma TopOfScaled(s: seq<Word>, m: nat)
    requires s != [] && (|s| > 1 ==> s[|s| - 1] != 0)
    requires Radix(m) * 0x800_0000 <= Val(s) < Radix(m) * 0x1000_0000
    ensures FourZeroBits(s)
  {
    hide Val, Radix;
    ValTop(s);
    ValBound(s);
    var n := |s| - 1;
    if n < m {
      RadixMonotone(|s|, m);
    } else if m < n {
      RadixMonotone(m + 1, n);
      RadixNext(m);
      MulMonotone(1, s[n], Radix(n));
    } else {
      SameRadix(Radix(m), Val(s), s[n]);
    }
  }

  lemma SameRadix(r: nat, v: nat, top: int)
    requires r * top <= v < r * (top + 1) && r * 0x800_0000 <= v < r * 0x1000_0000
    ensures 0x800_0000 <= top < 0x1000_0000
  {
    assert top + 1 <= 0x800_0000 ==> r * (top + 1) <= r * 0x800_0000;
    assert top >= 0x1000_0000 ==> r * top >= r * 0x1000_0000;
  }

  method ShiftIfPositive(b: Bigint, n: nat) returns (r: Bigint)
    requires b.Valid() && b.Normal() && 0 < b.Value()
    ensures r == b || (fresh(r) && fresh(r.x))
    ensures r.Valid() && r.Normal() && r.Value() == b.Value() * Pow2(n)
  {
    hide Val;
    r := b;
    if n > 0 {
      hide Pow2;
      WordsOf(b);
      r := Lshift(b, n);
    }
  }

  /** The common factor of two by which both operands are scaled makes the divisor one
      that `quorem` can take a quotient estimate from. */
  method ScaleOperands(b0: Bigint, S0: Bigint, b2: nat, s2: nat) returns (b: Bigint, S: Bigint, i: nat)
    requires b0.Valid() && b0.Normal() && S0.Valid() && S0.Normal() && b0 != S0 && b0.x != S0.x
    requires 0 < b0.Value() && 0 < S0.Value()
    ensures i < 32 && Pair(b, S)
    ensures (b == b0 || (fresh(b) && fresh(b.x))) && (S == S0 || (fresh(S) && fresh(S.x)))
    ensures b.Value() == b0.Value() * Pow2(b2 + i)
    ensures S.Value() == S0.Value() * Pow2(s2 + i)
  {
    hide Val, Radix, Pow2, FourZeroBits;
    ghost var m: nat;
    i, m := Dshift(S0, s2);
    b := ShiftIfPositive(b0, b2 + i);
    S := ShiftIfPositive(S0, s2 + i);
    PositiveScaled(m, S.Value());
    WordsOf(S);
    TopOfScaled(S.x[..S.wds], m);
  }

  lemma PositiveScaled(m: nat, v: nat)
    requires Radix(m) * 0x800_0000 <= v
    ensures 0 < v
  {
  }
}
