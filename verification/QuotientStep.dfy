/** One digit of a quotient: `quorem` (`src/jso_dg_dtoa.c`, lines 2142-2264). */
module QuotientSteps {
  import opened Words
  import opened Bigints
  import opened BigintShifts

  // ---- Subtracting a multiple ---------------------------------------------

  /** `q` times the lowest `i` words of `s` have been taken from `b0`. */
  ghost predicate TakenUpTo(s: seq<Word>, b0: seq<Word>, b: seq<Word>, q: nat, i: nat, borrow: int, carry: int) {
    && i <= |s| <= |b0| == |b| && 0 <= borrow <= 1 && 0 <= carry < BASE && q < BASE
    && b[i..] == b0[i..]
    && Val(b[..i]) + q * Val(s[..i]) == Val(b0[..i]) + Radix(i) * (borrow + carry)
  }

  lemma TakeArithmetic(b: int, s: int, b0: int, r: int, q: int, bw: int, sw: int, borrow: int, carry: int,
                       low: int, borrow': int, carry': int)
    requires b + q * s == b0 + r * (borrow + carry)
    requires low + sw * q + carry + borrow == bw + BASE * (borrow' + carry')
    ensures (b + r * low) + q * (s + r * sw) == (b0 + r * bw) + (BASE * r) * (borrow' + carry')
  {
    assert q * (s + r * sw) == q * s + r * (sw * q);
    assert r * (low + sw * q + carry + borrow) == r * low + r * (sw * q) + r * (borrow + carry);
    assert r * (bw + BASE * (borrow' + carry')) == r * bw + (BASE * r) * (borrow' + carry');
  }

  /** The product of one word with the digit, and the carry. */
  function Times(w: int, q: int, carry: int): int { w * q + carry }

  lemma TakeWord(bw: Word, sw: Word, q: nat, borrow: int, carry: int, ys: int, y: int)
    requires q < BASE && 0 <= borrow <= 1 && 0 <= carry < BASE
    requires ys == Times(sw, q, carry) && y == Minus(bw, ys % BASE, borrow)
    ensures 0 <= ys < DOUBLE_BASE && ys / BASE < BASE && 0 <= y / BASE % 2 <= 1
    ensures y % BASE + sw * q + carry + borrow == bw + BASE * (y / BASE % 2 + ys / BASE)
  {
    MultaddFits(sw, q, carry);
    BorrowStep(bw, ys % BASE, borrow);
    assert ys == BASE * (ys / BASE) + ys % BASE;
  }

  lemma TakeNext(s: seq<Word>, b0: seq<Word>, b: seq<Word>, q: nat, i: nat, borrow: int, carry: int, ys: int, y: int)
    requires TakenUpTo(s, b0, b, q, i, borrow, carry) && i < |s|
    requires ys == Times(s[i], q, carry) && y == Minus(b[i], ys % BASE, borrow)
    ensures 0 <= ys < DOUBLE_BASE && ys / BASE < BASE
    ensures TakenUpTo(s, b0, b[i := y % BASE], q, i + 1, y / BASE % 2, ys / BASE)
  {
    hide Val, Radix, Times, Minus;
    TakeWord(b[i], s[i], q, borrow, carry, ys, y);
    assert b[i] == b[i..][0] == b0[i];
    var b' := b[i := y % BASE];
    assert b'[..i] == b[..i] && b'[i + 1..] == b[i..][1..] == b0[i..][1..];
    ValNext(b', i);
    ValNext(b0, i);
    ValNext(s, i);
    RadixNext(i);
    TakeArithmetic(Val(b[..i]), Val(s[..i]), Val(b0[..i]), Radix(i), q, b[i], s[i], borrow, carry,
      y % BASE, y / BASE % 2, ys / BASE);
  }

  lemma TakeStarts(s: seq<Word>, b: seq<Word>, q: nat)
    requires |s| <= |b| && q < BASE
    ensures TakenUpTo(s, b, b, q, 0, 0, 0)
  {
    assert Val(s[..0]) == 0;
  }

  /** Nothing is left to be borrowed when the multiple is not too big. */
  lemma TakeEnds(s: seq<Word>, b0: seq<Word>, b: seq<Word>, q: nat, borrow: int, carry: int)
    requires TakenUpTo(s, b0, b, q, |s|, borrow, carry) && q * Val(s) <= Val(b0[..|s|])
    ensures borrow == 0 && carry == 0
    ensures Val(b[..|s|]) == Val(b0[..|s|]) - q * Val(s)
  {
    hide Val, Radix;
    assert s[..|s|] == s;
    ValBound(b[..|s|]);
    NothingOver(Radix(|s|), borrow + carry, Val(b0[..|s|]) - q * Val(s), Val(b[..|s|]));
  }

  lemma NothingOver(r: nat, x: nat, d: nat, v: nat)
    requires v == d + r * x && v < r
    ensures x == 0 && v == d
  {
    if x > 0 { MulMonotone(1, x, r); }
  }

  /** One of the two subtraction passes of `quorem`. */
  method Take(x: array<Word>, sx: array<Word>, n: nat, q: Word)
    requires n <= x.Length && n <= sx.Length && x != sx
    requires q * Val(sx[..n]) <= Val(x[..n])
    modifies x
    ensures Val(x[..n]) == old(Val(x[..n])) - q * Val(sx[..n])
    ensures x[n..] == old(x[n..])
  {
    hide Val, Radix, TakenUpTo, Times, Minus;
    ghost var s, b0 := sx[..n], x[..];
    assert b0[..n] == x[..n];
    var borrow, carry: int := 0, 0;
    var i := 0;
    TakeStarts(s, b0, q);
    while i < n
      invariant 0 <= i <= n && TakenUpTo(s, b0, x[..], q, i, borrow, carry)
      invariant x[n..] == b0[n..]
    {
      ghost var b := x[..];
      ghost var wide := Times(s[i], q, carry);
      TakeNext(s, b0, b, q, i, borrow, carry, wide, Minus(b[i], wide % BASE, borrow));
      var ys: DoubleWord := Times(sx[i], q, carry);
      carry := ys / BASE;
      var y: DoubleWord := Minus(x[i], ys % BASE, borrow);
      borrow := y / BASE % 2;
      var low: Word := y % BASE;
      x[i] := low;
      assert x[..] == b[i := low];
      i := i + 1;
    }
    TakeEnds(s, b0, x[..], q, borrow, carry);
    assert x[..][..n] == x[..n];
  }

  // ---- The estimate -------------------------------------------------------

  /** The top words give a quotient that is not too big and at most one too small. */
  lemma Estimate(b: seq<Word>, s: seq<Word>)
    requires |b| == |s| && FourZeroBits(s) && Val(b) < 10 * Val(s)
    ensures var q := b[|b| - 1] / (s[|s| - 1] as int + 1);
            && 0 <= q <= 9
            && q * Val(s) <= Val(b) < (q + 2) * Val(s)
  {
    hide Val, Radix;
    var n := |s| - 1;
    ValTop(b);
    ValTop(s);
    EstimateArithmetic(Val(b), Val(s), Radix(n), b[n], s[n]);
  }

  lemma NotTooBig(b: nat, s: nat, r: nat, bt: nat, st: nat, q: nat)
    requires r * bt <= b && s < r * (st + 1) && q * (st + 1) <= bt
    ensures q * s <= b
  {
    MulMonotone(s, r * (st + 1), q);
    assert q * (r * (st + 1)) == r * (q * (st + 1));
    MulMonotone(q * (st + 1), bt, r);
  }

  lemma NotTooSmall(b: nat, s: nat, r: nat, bt: nat, st: nat, q: nat)
    requires b < r * (bt + 1) && r * st <= s && bt < (st + 1) * (q + 1) && q + 1 <= st
    ensures b < (q + 2) * s
  {
    assert (st + 1) * (q + 1) == st * (q + 1) + (q + 1) && st * (q + 2) == st * (q + 1) + st;
    MulMonotone(bt + 1, st * (q + 2), r);
    assert r * (st * (q + 2)) == (q + 2) * (r * st);
    MulMonotone(r * st, s, q + 2);
  }

  lemma EstimateArithmetic(b: nat, s: nat, r: nat, bt: int, st: int)
    requires r * bt <= b < r * (bt + 1) && r * st <= s < r * (st + 1) && b < 10 * s
    requires 0 <= bt < BASE && 0x800_0000 <= st < 0x1000_0000
    ensures var q := bt / (st + 1);
            && 0 <= q <= 9
            && q * s <= b < (q + 2) * s
  {
    var q, m := bt / (st + 1), bt % (st + 1);
    assert bt == q * (st + 1) + m;
    if q >= 0x20 { MulMonotone(0x20, q, st + 1); }
    NotTooBig(b, s, r, bt, st, q);
    assert (st + 1) * (q + 1) == q * (st + 1) + (st + 1);
    NotTooSmall(b, s, r, bt, st, q);
    if q >= 10 { MulMonotone(10, q, s); }
  }

  /** The dividend has no more words than the divisor. */
  lemma NoLonger(b: seq<Word>, s: seq<Word>)
    requires FourZeroBits(s) && Val(b) < 10 * Val(s) && (|b| > 1 ==> b[|b| - 1] != 0)
    ensures |b| <= |s|
  {
    hide Val, Radix;
    if |b| > |s| {
      ValTop(b);
      ValTop(s);
      MulMonotone(1, b[|b| - 1], Radix(|b| - 1));
      RadixMonotone(|s|, |b| - 1);
      RadixNext(|s| - 1);
      MulMonotone(s[|s| - 1] as int + 1, 0x1000_0000, Radix(|s| - 1));
    }
  }

  lemma Shorter(b: seq<Word>, s: seq<Word>)
    requires FourZeroBits(s) && |b| < |s|
    ensures Val(b) < Val(s)
  {
    LongerIsGreater(b, s);
  }

  // ---- The step -----------------------------------------------------------

  lemma WordsOf(b: Bigint)
    requires b.Valid() && b.Normal()
    ensures 0 < b.Value() ==> 0 < b.wds
    ensures b.Value() == 0 <==> b.wds <= 1 && b.x[0] == 0
  {
    if b.wds == 0 {
      assert b.x[..0] == [];
    } else if b.wds == 1 {
      OneWord(b, b.x[0]);
    } else {
      HasTopWord(b);
    }
  }

  lemma HasTopWord(b: Bigint)
    requires b.Valid() && 1 < b.wds && b.x[b.wds - 1] != 0
    ensures 0 < b.Value()
  {
    hide Val, Radix;
    ValTop(b.x[..b.wds]);
    MulMonotone(1, b.x[b.wds - 1], Radix(b.wds - 1));
  }

  /** Drops leading zero words; `n` is the index of the top word of the divisor.  Zero is left
      without words exactly when the divisor has a single one. */
  method DropZeros(b: Bigint, n0: nat)
    requires b.Valid() && b.wds == n0 + 1
    modifies b`wds
    ensures b.Valid() && b.Normal() && b.wds <= n0 + 1 && b.Value() == old(b.Value())
    ensures b.Value() == 0 ==> b.wds == if n0 == 0 then 0 else 1
  {
    hide Val, Radix, Pow2;
    ghost var s := b.x[..n0 + 1];
    var n := n0;
    if b.x[n] == 0 {
      var top: int := n - 1;
      while 0 < top && b.x[top] == 0
        invariant top == n - 1 && n <= n0 && (0 < n0 ==> 0 < n)
        invariant forall j :: n <= j <= n0 ==> b.x[j] == 0
      {
        n := n - 1;
        top := top - 1;
      }
      b.wds := n;
      ValTrim(s, n);
      assert s[..n] == b.x[..n];
    }
    WordsOf(b);
  }

  /** `q` divisors fit into `b`, and `r` is left. */
  ghost predicate Divided(b: int, s: int, q: int, r: int) {
    b == q * s + r && 0 <= r
  }

  ghost predicate Fits(b: int, s: int, q: int) { q * s <= b }

  /** Fewer than two divisors are left after `q` of them. */
  ghost predicate NearlyAll(b: int, s: int, q: int) { b < (q + 2) * s }

  /** Takes a multiple of the divisor away and drops leading zero words. */
  method TakeMultiple(b: Bigint, S: Bigint, q: Word)
    requires b.Valid() && S.Valid() && b != S && b.x != S.x && 0 < b.wds == S.wds
    requires Fits(b.Value(), S.Value(), q)
    modifies b`wds, b.x
    ensures b.Valid() && b.Normal() && b.wds <= S.wds
    ensures Divided(old(b.Value()), S.Value(), q, b.Value())
    ensures b.Value() == 0 ==> b.wds == if S.wds == 1 then 0 else 1
  {
    hide Val, Radix, Pow2;
    Take(b.x, S.x, S.wds, q);
    DropZeros(b, S.wds - 1);
  }

  /** The estimate of the quotient from the top words. */
  function TopQuotient(bt: Word, st: Word): nat { bt / (st as int + 1) }

  method Quorem(b: Bigint, S: Bigint) returns (q: nat)
    requires b.Valid() && b.Normal() && S.Valid() && S.Normal() && b != S && b.x != S.x
    requires FourZeroBits(S.x[..S.wds]) && b.Value() < 10 * S.Value()
    modifies b, b.x
    ensures b.Valid() && b.Normal() && b.sign == old(b.sign)
    ensures q == old(b.Value()) / S.Value()
    ensures b.Value() == old(b.Value()) % S.Value()
    ensures q <= 9
    ensures b.Value() == 0 < old(b.Value()) ==> b.wds == if S.wds == 1 then 0 else 1
  {
    hide Val, Radix, Pow2, Divided, Fits, NearlyAll, FourZeroBits, TopQuotient;
    ghost var s, b0 := S.x[..S.wds], b.x[..b.wds];
    NoLonger(b0, s);
    var n := S.wds;
    NoneTaken(Val(b0), Val(s));
    if b.wds < n {
      Shorter(b0, s);
      Whole(Val(b0), Val(s), 0, Val(b0));
      return 0;
    }
    Estimated(b0, s);
    q := TopQuotient(b.x[n - 1], S.x[n - 1]);
    if q != 0 {
      TakeMultiple(b, S, q);
    }
    ghost var r := b.Value();
    Rest(Val(b0), Val(s), q, r);
    var c := Cmp(b, S);
    ValZeros([]);
    assert b.wds == 0 ==> b.x[..b.wds] == [];
    if c >= 0 {
      if b.wds < n { Shorter(b.x[..b.wds], s); }
      FitsOnce(r, Val(s));
      q := q + 1;
      TakeMultiple(b, S, 1);
      OneMore(Val(b0), Val(s), q, r, b.Value());
    }
    Whole(Val(b0), Val(s), q, b.Value());
  }

  lemma NoneTaken(b: nat, s: nat)
    ensures Divided(b, s, 0, b)
  {
  }

  lemma Estimated(b: seq<Word>, s: seq<Word>)
    requires |b| == |s| && FourZeroBits(s) && Val(b) < 10 * Val(s)
    ensures s != []
    ensures var q := TopQuotient(b[|b| - 1], s[|s| - 1]);
            q <= 9 && Fits(Val(b), Val(s), q) && NearlyAll(Val(b), Val(s), q)
  {
    Estimate(b, s);
  }

  lemma Rest(b: nat, s: nat, q: nat, r: int)
    requires Divided(b, s, q, r) && NearlyAll(b, s, q)
    ensures 0 <= r < 2 * s
  {
    assert (q + 2) * s == q * s + 2 * s;
  }

  lemma FitsOnce(r: nat, s: nat)
    requires s <= r
    ensures Fits(r, s, 1)
  {
  }

  lemma OneMore(b: nat, s: nat, q: nat, r: int, r': int)
    requires 0 < q && Divided(b, s, q - 1, r) && Divided(r, s, 1, r') && r < 2 * s
    ensures Divided(b, s, q, r') && r' < s
  {
    assert q * s == (q - 1) * s + s;
  }

  lemma Whole(b: nat, s: nat, q: nat, r: int)
    requires Divided(b, s, q, r) && r < s && b < 10 * s
    ensures q == b / s && r == b % s && q <= 9
  {
    DivUnique(b, s, q, r);
    if q >= 10 { MulMonotone(10, q, s); }
  }
}
