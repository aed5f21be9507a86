/** Multi-word integers (`src/jso_dg_dtoa.c`, lines 542-1169 and 1665-1758), in the
    configuration with 32-bit words and a 64-bit accumulator.

    Shifts and masks of machine words are written arithmetically: `>> 32` is division
    by `BASE`, `& FFFFFFFF` the remainder, and `|` of disjoint bits is addition. */
module Bigints {
  import opened NumberTexts
  import opened Words

  class Bigint {
    /** Size class: there is room for two to the power of `k` words. */
    const k: nat
    const x: array<Word>
    var sign: bool
    var wds: nat

    ghost predicate Valid()
      reads this
    {
      x.Length == Pow2(k) && wds <= x.Length
    }

    ghost function Value(): nat
      requires Valid()
      reads this, x
    {
      Val(x[..wds])
    }

    /** No leading zero words.  Zero is one zero word, or no word and a zero in the first place. */
    ghost predicate Normal()
      requires Valid()
      reads this, x
    {
      if wds == 0 then x[0] == 0 else wds == 1 || x[wds - 1] != 0
    }

    /** `Balloc`: the words hold whatever was there before. */
    constructor (k: nat)
      ensures Valid() && this.k == k && wds == 0 && !sign
      ensures fresh(x)
    {
      this.k := k;
      this.x := new Word[Pow2(k)];
      sign, wds := false, 0;
    }

    /** `Bcopy` into a number of the next size class. */
    method Grown() returns (b1: Bigint)
      requires Valid()
      ensures fresh(b1) && fresh(b1.x) && b1.Valid() && b1.k == k + 1
      ensures b1.wds == wds && b1.sign == sign && b1.x[..wds] == x[..wds]
    {
      b1 := new Bigint(k + 1);
      b1.sign, b1.wds := sign, wds;
      var i := 0;
      while i < wds
        invariant 0 <= i <= wds && b1.Valid() && b1.wds == wds && b1.sign == sign
        invariant b1.x[..i] == x[..i]
      {
        b1.x[i] := x[i];
        i := i + 1;
      }
    }
  }

  /** Appends a word at the top, moving the number to the next size class when it is full. */
  method Append(b: Bigint, w: Word) returns (r: Bigint)
    requires b.Valid() && w != 0
    modifies b, b.x
    ensures r.Valid() && r.Normal() && (r == b || (fresh(r) && fresh(r.x)))
    ensures r.Value() == old(b.Value()) + Radix(old(b.wds)) * w
    ensures r.wds == old(b.wds) + 1 && r.sign == old(b.sign)
  {
    r := b;
    ghost var xs := b.x[..b.wds];
    if b.wds >= b.x.Length {
      r := b.Grown();
      assert Pow2(b.k + 1) == 2 * Pow2(b.k);
    }
    assert r.x[..r.wds] == xs;
    r.x[r.wds] := w;
    r.wds := r.wds + 1;
    assert r.x[..r.wds][..|xs|] == xs;
  }

  // ---- Multiply by a small number and add ---------------------------------

  lemma MultaddStep(before: nat, after: nat, radix: nat, m: nat, a: nat, carry: nat, w: nat, y: nat)
    requires after + radix * carry == before * m + a && y == w * m + carry
    ensures (after + radix * (y % BASE)) + (BASE * radix) * (y / BASE) == (before + radix * w) * m + a
  {
    var low, high := y % BASE, y / BASE;
    assert y == low + BASE * high;
    assert radix * low + (BASE * radix) * high == radix * y;
    assert radix * y == radix * (w * m) + radix * carry;
    assert (before + radix * w) * m == before * m + radix * (w * m);
  }

  lemma MultaddFits(w: nat, m: nat, carry: nat)
    requires w < BASE && m < BASE && carry < BASE
    ensures w * m + carry < DOUBLE_BASE && (w * m + carry) / BASE < BASE
  {
    MulMonotone(w, BASE - 1, m);
    MulMonotone(m, BASE - 1, BASE - 1);
  }

  /** Words below `i` have been multiplied; what is carried has the weight of word `i`. */
  ghost predicate MultaddUpTo(xs: seq<Word>, ys: seq<Word>, i: nat, m: nat, a: nat, carry: nat) {
    && i <= |xs| == |ys| && carry < BASE
    && ys[i..] == xs[i..]
    && Val(ys[..i]) + Radix(i) * carry == Val(xs[..i]) * m + a
  }

  lemma MultaddNext(xs: seq<Word>, ys: seq<Word>, i: nat, m: nat, a: nat, carry: nat, y: nat)
    requires MultaddUpTo(xs, ys, i, m, a, carry) && i < |xs| && m < BASE
    requires y == ys[i] * m + carry
    ensures y < DOUBLE_BASE && y / BASE < BASE
    ensures MultaddUpTo(xs, ys[i := y % BASE], i + 1, m, a, y / BASE)
  {
    assert ys[i] == ys[i..][0] == xs[i];
    MultaddFits(xs[i], m, carry);
    MultaddStep(Val(xs[..i]), Val(ys[..i]), Radix(i), m, a, carry, xs[i], y);
    ValNext(xs, i);
    var zs := ys[i := y % BASE];
    ValNext(zs, i);
    assert zs[..i] == ys[..i];
    assert zs[i + 1..] == ys[i..][1..] == xs[i..][1..];
  }

  /** The top word stays nonzero. */
  lemma TopSurvives(s: seq<Word>, t: seq<Word>, m: nat, a: nat)
    requires |s| == |t| && s != [] && s[|s| - 1] != 0 && m > 0
    requires Val(t) == Val(s) * m + a
    ensures t[|t| - 1] != 0
  {
    ValTop(s);
    ValTop(t);
    MulMonotone(1, s[|s| - 1], Radix(|s| - 1));
    MulMonotone(1, m, Val(s));
  }

  /** The loop over the words of `multadd`; returns the carry out of the top word. */
  method MultaddWords(x: array<Word>, wds: nat, m: nat, a: nat) returns (carry: Word)
    requires wds <= x.Length && m < BASE && a < BASE
    modifies x
    ensures Val(x[..wds]) + Radix(wds) * carry == Val(old(x[..wds])) * m + a
    ensures wds == 0 ==> carry == a && x[..] == old(x[..])
  {
    hide Val, Radix, MultaddUpTo;
    ghost var xs := x[..wds];
    var i := 0;
    carry := a;
    MultaddStarts(xs, m, a);
    while i < wds
      invariant 0 <= i <= wds && MultaddUpTo(xs, x[..wds], i, m, a, carry)
      invariant wds == 0 ==> carry == a && x[..] == old(x[..])
    {
      ghost var ys := x[..wds];
      var y := x[i] * m + carry;
      MultaddNext(xs, ys, i, m, a, carry, y);
      var z: DoubleWord := y;
      carry := z / BASE;
      var low: Word := z % BASE;
      x[i] := low;
      assert x[..wds] == ys[i := low];
      i := i + 1;
    }
    MultaddEnds(xs, x[..wds], m, a, carry);
  }

  method Multadd(b: Bigint, m: nat, a: nat) returns (r: Bigint)
    requires b.Valid() && m < 0x8000_0000 && a < 0x8000_0000
    requires b.wds == 0 ==> b.x[0] == 0 && a == 0
    modifies b, b.x
    ensures r.Valid() && (r == b || (fresh(r) && fresh(r.x)))
    ensures r.Value() == old(b.Value()) * m + a
    ensures old(b.Normal()) && m > 0 ==> r.Normal()
    ensures old(b.wds) <= r.wds && r.sign == old(b.sign)
  {
    hide Val, Radix, Pow2;
    ghost var xs := b.x[..b.wds];
    var carry := MultaddWords(b.x, b.wds, m, a);
    r := b;
    if carry != 0 {
      r := Append(b, carry);
    } else if old(b.Normal()) && m > 0 && b.wds > 1 {
      TopSurvives(xs, b.x[..b.wds], m, a);
    }
  }

  lemma MultaddStarts(xs: seq<Word>, m: nat, a: nat)
    requires a < BASE
    ensures MultaddUpTo(xs, xs, 0, m, a, a)
  {
  }

  lemma MultaddEnds(xs: seq<Word>, ys: seq<Word>, m: nat, a: nat, carry: nat)
    requires MultaddUpTo(xs, ys, |xs|, m, a, carry)
    ensures carry < BASE && |xs| == |ys| && Val(ys) + Radix(|xs|) * carry == Val(xs) * m + a
  {
    assert xs[..|xs|] == xs && ys[..|ys|] == ys;
  }

  // ---- Conversions --------------------------------------------------------

  method I2b(i: Word) returns (b: Bigint)
    ensures fresh(b) && fresh(b.x) && b.Valid() && b.Normal() && b.wds == 1 && !b.sign
    ensures b.Value() == i
  {
    b := new Bigint(1);
    b.x[0] := i;
    b.wds := 1;
    assert b.x[..1] == [i];
    assert Val([i]) == Val([i][..0]) + Radix(0) * i;
  }

  /** Digit number `j` of a digit string with a point of `dplen` characters behind `nd0` digits. */
  function DigitAt(s: string, nd0: nat, dplen: nat, j: nat): int
    requires j + (if j < nd0 then 0 else dplen) < |s|
  {
    s[if j < nd0 then j else j + dplen] as int - '0' as int
  }

  predicate DigitString(s: string, nd0: nat, nd: nat, dplen: nat) {
    && (nd > 0 ==> nd - 1 + (if nd - 1 < nd0 then 0 else dplen) < |s|)
    && forall j :: 0 <= j < nd ==> 0 <= DigitAt(s, nd0, dplen, j) <= 9
  }

  /** The number that the first `n` digits denote. */
  ghost function Decimal(s: string, nd0: nat, dplen: nat, n: nat): nat
    requires DigitString(s, nd0, n, dplen)
  {
    if n == 0 then 0 else 10 * Decimal(s, nd0, dplen, n - 1) + DigitAt(s, nd0, dplen, n - 1)
  }

  /** The digits without the point. */
  function DigitsText(s: string, nd0: nat, dplen: nat, n: nat): string
    requires DigitString(s, nd0, n, dplen)
  {
    if n <= nd0 then s[..n] else s[..nd0] + s[nd0 + dplen..n + dplen]
  }

  /** The digits without the point are digits, each of them one longer than the ones before. */
  lemma DigitsTextSnoc(s: string, nd0: nat, dplen: nat, n: nat)
    requires 0 < n && DigitString(s, nd0, n, dplen) && DigitString(s, nd0, n - 1, dplen)
    ensures |DigitsText(s, nd0, dplen, n)| == n
    ensures DigitsText(s, nd0, dplen, n)[n - 1] as int - '0' as int == DigitAt(s, nd0, dplen, n - 1)
    ensures DigitsText(s, nd0, dplen, n)[..n - 1] == DigitsText(s, nd0, dplen, n - 1)
  {
  }

  lemma DecimalSnoc(s: string, nd0: nat, dplen: nat, n: nat)
    requires 0 < n && DigitString(s, nd0, n, dplen)
    ensures DigitString(s, nd0, n - 1, dplen) && 0 <= DigitAt(s, nd0, dplen, n - 1) <= 9
    ensures Decimal(s, nd0, dplen, n) == 10 * Decimal(s, nd0, dplen, n - 1) + DigitAt(s, nd0, dplen, n - 1)
  {
    hide DigitAt;
  }

  /** The number is the one that the digits without the point are the decimal text of. */
  lemma {:induction false} DecimalMeans(s: string, nd0: nat, dplen: nat, n: nat)
    requires DigitString(s, nd0, n, dplen)
    ensures AllDigits(DigitsText(s, nd0, dplen, n))
    ensures Decimal(s, nd0, dplen, n) == TextValue(DigitsText(s, nd0, dplen, n))
    decreases n
  {
    hide DigitString, DigitAt, DigitsText, Decimal;
    if n > 0 {
      DecimalSnoc(s, nd0, dplen, n);
      DigitsTextSnoc(s, nd0, dplen, n);
      DecimalMeans(s, nd0, dplen, n - 1);
    } else {
      NoDigits(s, nd0, dplen);
    }
  }

  lemma NoDigits(s: string, nd0: nat, dplen: nat)
    ensures DigitsText(s, nd0, dplen, 0) == [] && Decimal(s, nd0, dplen, 0) == 0
  {
  }

  function Smaller(m: nat, n: nat): nat { if m < n then m else n }

  /** The number has been read up to digit `n`. */
  ghost predicate Reads(b: Bigint, s: string, nd0: nat, dplen: nat, n: nat)
    requires DigitString(s, nd0, n, dplen)
    reads b, b.x
  {
    b.Valid() && b.Normal() && 1 <= b.wds && b.Value() == Decimal(s, nd0, dplen, n)
  }

  /** One more digit, which stands at `at`. */
  method ReadDigit(b: Bigint, s: string, nd0: nat, dplen: nat, i: nat, at: nat) returns (r: Bigint)
    requires at == if i < nd0 then i else i + dplen
    requires DigitString(s, nd0, i + 1, dplen) && DigitString(s, nd0, i, dplen) && Reads(b, s, nd0, dplen, i)
    modifies b, b.x
    ensures r == b || (fresh(r) && fresh(r.x))
    ensures Reads(r, s, nd0, dplen, i + 1)
  {
    hide Val, Pow2;
    assert 0 <= DigitAt(s, nd0, dplen, i) <= 9;
    r := Multadd(b, 10, s[at] as int - '0' as int);
  }

  /** `y9` is the value of the first nine digits, or of all digits when there are fewer. */
  method S2b(s: string, nd0: nat, nd: nat, y9: Word, dplen: nat) returns (b: Bigint)
    requires nd0 <= nd && DigitString(s, nd0, nd, dplen)
    requires DigitString(s, nd0, Smaller(nd, 9), dplen) && y9 == Decimal(s, nd0, dplen, Smaller(nd, 9))
    ensures fresh(b) && fresh(b.x) && Reads(b, s, nd0, dplen, nd)
    ensures AllDigits(DigitsText(s, nd0, dplen, nd)) && b.Value() == TextValue(DigitsText(s, nd0, dplen, nd))
  {
    hide Pow2, Val, Decimal, DigitString, DigitAt, TextValue, DigitsText, AllDigits;
    DecimalMeans(s, nd0, dplen, nd);
    var x := (nd + 8) / 9;
    var k, y := 0, 1;
    while x > y
      invariant 1 <= y
      decreases x - y
    {
      y, k := 2 * y, k + 1;
    }
    b := new Bigint(k);
    Pow2AtLeastOne(k);
    b.x[0] := y9;
    b.wds := 1;
    StartsReading(b, s, nd0, dplen, Smaller(nd, 9), y9);
    var i, at := 9, 9;
    if 9 < nd0 {
      while i < nd0
        invariant 9 <= i <= nd0 && at == i
        invariant fresh(b) && fresh(b.x)
        invariant DigitString(s, nd0, i, dplen) && Reads(b, s, nd0, dplen, i)
      {
        ShorterDigits(s, nd0, nd, dplen, i + 1);
        b := ReadDigit(b, s, nd0, dplen, i, at);
        at, i := at + 1, i + 1;
      }
      at := at + dplen;
    } else {
      at := dplen + 9;
    }
    while i < nd
      invariant 9 <= i && nd0 <= i && (i <= nd || nd < 9) && at == i + dplen
      invariant fresh(b) && fresh(b.x)
      invariant DigitString(s, nd0, Smaller(i, nd), dplen) && Reads(b, s, nd0, dplen, Smaller(i, nd))
    {
      ShorterDigits(s, nd0, nd, dplen, i + 1);
      b := ReadDigit(b, s, nd0, dplen, i, at);
      at, i := at + 1, i + 1;
    }
  }

  lemma ShorterDigits(s: string, nd0: nat, nd: nat, dplen: nat, n: nat)
    requires DigitString(s, nd0, nd, dplen) && n <= nd
    ensures DigitString(s, nd0, n, dplen)
  {
  }

  lemma StartsReading(b: Bigint, s: string, nd0: nat, dplen: nat, n: nat, y9: Word)
    requires b.Valid() && b.wds == 1 && b.x[0] == y9
    requires DigitString(s, nd0, n, dplen) && y9 == Decimal(s, nd0, dplen, n)
    ensures Reads(b, s, nd0, dplen, n)
  {
    OneWord(b, y9);
  }

  lemma Pow2AtLeastOne(k: nat)
    ensures Pow2(k) >= 1
  {
  }

  lemma OneWord(b: Bigint, w: Word)
    requires b.Valid() && b.wds == 1 && b.x[0] == w
    ensures b.Value() == w && b.Normal()
  {
    assert b.x[..1] == [w];
    assert Val([w]) == Val([w][..0]) + Radix(0) * w;
  }

  // ---- Comparison ---------------------------------------------------------

  /** Two sequences agree above `p` and differ there. */
  lemma FirstDifference(s: seq<Word>, t: seq<Word>, p: nat)
    requires |s| == |t| && p < |s| && s[p + 1..] == t[p + 1..] && s[p] < t[p]
    ensures Val(s) < Val(t)
  {
    assert s == s[..p + 1] + s[p + 1..] && t == t[..p + 1] + t[p + 1..];
    ValConcat(s[..p + 1], s[p + 1..]);
    ValConcat(t[..p + 1], t[p + 1..]);
    ValTop(s[..p + 1]);
    ValTop(t[..p + 1]);
    MulMonotone(s[p] as int + 1, t[p], Radix(p));
  }

  /** The sign of the comparison is the order of the values; a number without words is
      below every number with words. */
  method Cmp(a: Bigint, b: Bigint) returns (r: int)
    requires a.Valid() && b.Valid() && a.Normal() && b.Normal()
    requires 0 < a.wds || 0 < b.wds
    ensures a.wds == 0 ==> r < 0
    ensures b.wds == 0 ==> 0 < r
    ensures 0 < a.wds && 0 < b.wds ==>
              && (r < 0 <==> a.Value() < b.Value())
              && (r == 0 <==> a.Value() == b.Value())
  {
    hide Val, Radix, Pow2;
    ghost var s, t := a.x[..a.wds], b.x[..b.wds];
    r := a.wds - b.wds;
    if r != 0 {
      DifferentLengths(s, t);
      return;
    }
    var p := b.wds;
    while true
      invariant 0 < p <= b.wds && s[p..] == t[p..]
      decreases p
    {
      p := p - 1;
      if a.x[p] != b.x[p] {
        r := if a.x[p] < b.x[p] then -1 else 1;
        if s[p] < t[p] { FirstDifference(s, t, p); } else { FirstDifference(t, s, p); }
        return;
      }
      assert s[p..] == [s[p]] + s[p + 1..] && t[p..] == [t[p]] + t[p + 1..];
      if p <= 0 {
        break;
      }
    }
    assert s == s[0..] == t[0..] == t;
  }

  lemma DifferentLengths(s: seq<Word>, t: seq<Word>)
    requires |s| > 1 ==> s[|s| - 1] != 0
    requires |t| > 1 ==> t[|t| - 1] != 0
    ensures 0 < |s| < |t| ==> Val(s) < Val(t)
    ensures 0 < |t| < |s| ==> Val(t) < Val(s)
  {
    if 0 < |s| < |t| { LongerIsGreater(s, t); }
    if 0 < |t| < |s| { LongerIsGreater(t, s); }
  }

  // ---- Subtraction --------------------------------------------------------

  /** One word of a subtraction in 64-bit arithmetic. */
  function Minus(x: int, y: int, borrow: int): DoubleWord {
    (x - y - borrow) % DOUBLE_BASE
  }

  lemma BorrowStep(x: int, y: int, borrow: int)
    requires 0 <= x < BASE && 0 <= y < BASE && 0 <= borrow <= 1
    ensures var z: int := Minus(x, y, borrow);
            var borrow' := z / BASE % 2;
            && 0 <= borrow' <= 1
            && x + BASE * borrow' == z % BASE + y + borrow
  {
    var d := x - y - borrow;
    if d < 0 {
      assert (d + DOUBLE_BASE) / BASE == BASE - 1;
    }
  }

  function WordAt(s: seq<Word>, i: nat): Word { if i < |s| then s[i] else 0 }

  ghost function Low(s: seq<Word>, i: nat): nat { Val(s[..Smaller(i, |s|)]) }

  lemma LowNext(s: seq<Word>, i: nat)
    ensures Low(s, i + 1) == Low(s, i) + Radix(i) * WordAt(s, i)
  {
    if i < |s| { ValNext(s, i); }
  }

  /** Words below `i` of `s - t` are known to be `u`, with a borrow from word `i`. */
  ghost predicate MinusUpTo(s: seq<Word>, t: seq<Word>, u: seq<Word>, i: nat, borrow: int) {
    && 0 <= borrow <= 1 && i <= |u| && |t| <= |s| == |u|
    && Low(s, i) + Radix(i) * borrow == Val(u[..i]) + Low(t, i)
  }

  lemma MinusNext(s: seq<Word>, t: seq<Word>, u: seq<Word>, i: nat, borrow: int, z: int)
    requires MinusUpTo(s, t, u, i, borrow) && i < |s|
    requires z == Minus(s[i], WordAt(t, i), borrow)
    ensures MinusUpTo(s, t, u[i := z % BASE], i + 1, z / BASE % 2)
  {
    var y: int, low, next := WordAt(t, i), z % BASE, z / BASE % 2;
    BorrowStep(s[i], y, borrow);
    LowNext(s, i);
    LowNext(t, i);
    var v := u[i := low];
    ValNext(v, i);
    assert v[..i] == u[..i];
    MinusArithmetic(Radix(i), s[i], y, borrow, low, next);
  }

  lemma MinusArithmetic(radix: int, x: int, y: int, borrow: int, low: int, next: int)
    requires x + BASE * next == low + y + borrow
    ensures radix * x + (BASE * radix) * next == radix * low + radix * y + radix * borrow
  {
    assert (BASE * radix) * next == radix * (BASE * next);
    assert radix * (x + BASE * next) == radix * (low + y + borrow);
  }

  lemma NoBorrow(radix: nat, borrow: int, s: nat, t: nat, u: nat)
    requires 0 <= borrow <= 1 && s + radix * borrow == u + t && t <= s && u < radix
    ensures borrow == 0 && u == s - t
  {
    assert borrow == 1 ==> radix * borrow == radix;
  }

  lemma MinusComplete(s: seq<Word>, t: seq<Word>, u: seq<Word>, borrow: int)
    requires MinusUpTo(s, t, u, |s|, borrow)
    ensures 0 <= borrow <= 1 && |u| == |s| && Val(s) + Radix(|s|) * borrow == Val(u) + Val(t)
  {
    hide Val, Radix;
    assert s[..|s|] == s && t[..|t|] == t && u[..|u|] == u;
  }

  lemma MinusEnds(s: seq<Word>, t: seq<Word>, u: seq<Word>, borrow: int)
    requires MinusUpTo(s, t, u, |s|, borrow) && Val(t) <= Val(s)
    ensures borrow == 0 && Val(u) == Val(s) - Val(t)
  {
    hide *;
    MinusComplete(s, t, u, borrow);
    ValBound(u);
    NoBorrow(Radix(|s|), borrow, Val(s), Val(t), Val(u));
  }

  method Diff(a0: Bigint, b0: Bigint) returns (c: Bigint)
    requires a0.Valid() && b0.Valid() && a0.Normal() && b0.Normal() && 0 < a0.wds && 0 < b0.wds
    ensures fresh(c) && fresh(c.x) && c.Valid() && c.Normal() && 0 < c.wds
    ensures c.sign <==> a0.Value() < b0.Value()
    ensures c.Value() == if c.sign then b0.Value() - a0.Value() else a0.Value() - b0.Value()
  {
    hide Val, Radix, Pow2, MinusUpTo;
    var a, b := a0, b0;
    var i := Cmp(a, b);
    if i == 0 {
      c := new Bigint(0);
      c.wds := 1;
      c.x[0] := 0;
      OneWord(c, 0);
      return;
    }
    if i < 0 {
      a, b := b, a;
    }
    c := new Bigint(a.k);
    c.sign := i < 0;
    ghost var s, t := a.x[..a.wds], b.x[..b.wds];
    NotShorter(s, t);
    var borrow := 0;
    var n := 0;
    MinusStarts(s, t, c.x[..a.wds]);
    while n < b.wds
      invariant 0 <= n <= b.wds && a.wds <= c.x.Length && MinusUpTo(s, t, c.x[..a.wds], n, borrow)
      modifies c.x
    {
      ghost var u := c.x[..a.wds];
      MinusNext(s, t, u, n, borrow, Minus(s[n], t[n], borrow));
      var y: DoubleWord := Minus(a.x[n], b.x[n], borrow);
      borrow := y / BASE % 2;
      var low: Word := y % BASE;
      c.x[n] := low;
      assert c.x[..a.wds] == u[n := low];
      n := n + 1;
    }
    while n < a.wds
      invariant b.wds <= n <= a.wds && a.wds <= c.x.Length && MinusUpTo(s, t, c.x[..a.wds], n, borrow)
      modifies c.x
    {
      ghost var u := c.x[..a.wds];
      MinusNext(s, t, u, n, borrow, Minus(s[n], 0, borrow));
      var y: DoubleWord := Minus(a.x[n], 0, borrow);
      borrow := y / BASE % 2;
      var low: Word := y % BASE;
      c.x[n] := low;
      assert c.x[..a.wds] == u[n := low];
      n := n + 1;
    }
    MinusEnds(s, t, c.x[..a.wds], borrow);
    var wa := Trim(c.x, a.wds);
    c.wds := wa;
  }

  lemma MinusStarts(s: seq<Word>, t: seq<Word>, u: seq<Word>)
    requires |t| <= |s| == |u|
    ensures MinusUpTo(s, t, u, 0, 0)
  {
  }

  lemma NotShorter(s: seq<Word>, t: seq<Word>)
    requires |t| > 1 ==> t[|t| - 1] != 0
    requires 0 < |s| && Val(t) <= Val(s)
    ensures |t| <= |s|
  {
    if |s| < |t| { LongerIsGreater(s, t); }
  }

  /** Number of words up to the topmost nonzero one. */
  method Trim(x: array<Word>, n: nat) returns (wds: nat)
    requires n <= x.Length
    ensures wds <= n && Val(x[..wds]) == Val(x[..n])
    ensures 0 < wds ==> x[wds - 1] != 0
    ensures wds == 0 ==> forall i :: 0 <= i < n ==> x[i] == 0
    ensures 0 < Val(x[..n]) ==> 0 < wds
  {
    wds := n;
    while 0 < wds && x[wds - 1] == 0
      invariant wds <= n && forall i :: wds <= i < n ==> x[i] == 0
    {
      wds := wds - 1;
    }
    ValTrim(x[..n], wds);
    assert x[..n][..wds] == x[..wds];
    if wds == 0 { ValZeros(x[..n]); }
  }

  // ---- Successor ----------------------------------------------------------

  method Increment(b: Bigint) returns (r: Bigint)
    requires b.Valid() && 0 < b.wds
    modifies b, b.x
    ensures r.Valid() && (r == b || (fresh(r) && fresh(r.x)))
    ensures r.Value() == old(b.Value()) + 1
    ensures old(b.Normal()) ==> r.Normal()
    ensures r.sign == old(b.sign)
  {
    hide Val, Radix, Pow2;
    ghost var s := b.x[..b.wds];
    var i := 0;
    while i < b.wds
      invariant 0 <= i <= b.wds && forall j :: i <= j < b.wds ==> b.x[j] == s[j]
      invariant forall j :: 0 <= j < i ==> s[j] == BASE - 1 && b.x[j] == 0
      modifies b.x
    {
      if b.x[i] < 0xffff_ffff {
        b.x[i] := b.x[i] + 1;
        Successor(s, b.x[..b.wds], i);
        r := b;
        return;
      }
      b.x[i] := 0;
      i := i + 1;
    }
    AllNines(s);
    ValZeros(b.x[..b.wds]);
    r := Append(b, 1);
  }

  lemma {:induction false} AllNines(s: seq<Word>)
    requires forall j :: 0 <= j < |s| ==> s[j] == BASE - 1
    ensures Val(s) + 1 == Radix(|s|)
  {
    if s != [] {
      AllNines(s[..|s| - 1]);
      assert Radix(|s| - 1) * (BASE - 1) + Radix(|s| - 1) == BASE * Radix(|s| - 1);
    }
  }

  lemma MulNext(a: int, b: int)
    ensures a * (b + 1) == a * b + a
  {
  }

  lemma SplitAt(s: seq<Word>, i: nat)
    requires i < |s|
    ensures Val(s) == Val(s[..i]) + Radix(i) * s[i] + Radix(i + 1) * Val(s[i + 1..])
  {
    hide Val, Radix;
    ValNext(s, i);
    assert s == s[..i + 1] + s[i + 1..];
    ValConcat(s[..i + 1], s[i + 1..]);
  }

  lemma Successor(s: seq<Word>, t: seq<Word>, i: nat)
    requires |s| == |t| && i < |s| && s[i] as int + 1 == t[i] && t[i + 1..] == s[i + 1..]
    requires forall j :: 0 <= j < i ==> s[j] == BASE - 1 && t[j] == 0
    ensures Val(t) == Val(s) + 1
  {
    hide *;
    AllNines(s[..i]);
    ValZeros(t[..i]);
    SplitAt(s, i);
    SplitAt(t, i);
    MulNext(Radix(i), s[i]);
  }

  // ---- Multiplication -----------------------------------------------------

  /** Every inner step fits 64 bits, with nothing to spare. */
  lemma MultFits(w: nat, y: nat, c: nat, carry: nat)
    requires w < BASE && y < BASE && c < BASE && carry < BASE
    ensures w * y + c + carry < DOUBLE_BASE && (w * y + c + carry) / BASE < BASE
  {
    MulMonotone(w, BASE - 1, y);
    MulMonotone(y, BASE - 1, BASE - 1);
    assert w * y <= (BASE - 1) * (BASE - 1);
  }

  /** Words below `i` of `s` times `y` have been added to `c0` from word `j` on. */
  ghost predicate RowUpTo(s: seq<Word>, c0: seq<Word>, c: seq<Word>, j: nat, i: nat, y: nat, carry: nat) {
    && i <= |s| && j + |s| < |c| == |c0| && carry < BASE && y < BASE
    && c[j + i..] == c0[j + i..]
    && Val(c[..j + i]) + Radix(j + i) * carry == Val(c0[..j + i]) + Radix(j) * (Val(s[..i]) * y)
  }

  lemma RowArithmetic(c: int, c0: int, rj: int, ri: int, rji: int, carry: int, sv: int, y: int, w: int, cw: int, z: int)
    requires c + rji * carry == c0 + rj * (sv * y) && rji == rj * ri && z == w * y + cw + carry
    ensures (c + rji * (z % BASE)) + (BASE * rji) * (z / BASE) == (c0 + rji * cw) + rj * ((sv + ri * w) * y)
  {
    var low, high := z % BASE, z / BASE;
    assert rji * low + (BASE * rji) * high == rji * z;
    assert rji * z == rji * (w * y) + rji * cw + rji * carry;
    assert rj * ((sv + ri * w) * y) == rj * (sv * y) + rj * ((ri * w) * y);
    assert rj * ((ri * w) * y) == (rj * ri) * (w * y);
  }

  lemma RowNext(s: seq<Word>, c0: seq<Word>, c: seq<Word>, j: nat, i: nat, y: nat, carry: nat, z: nat)
    requires RowUpTo(s, c0, c, j, i, y, carry) && i < |s| && z == s[i] * y + c[j + i] + carry
    ensures z < DOUBLE_BASE && z / BASE < BASE
    ensures RowUpTo(s, c0, c[j + i := z % BASE], j, i + 1, y, z / BASE)
  {
    hide Val, Radix;
    assert c[j + i] == c[j + i..][0] == c0[j + i];
    MultFits(s[i], y, c[j + i], carry);
    var c' := c[j + i := z % BASE];
    ValNext(c', j + i);
    assert c'[..j + i] == c[..j + i];
    assert c'[j + i + 1..] == c[j + i..][1..] == c0[j + i..][1..];
    ValNext(c0, j + i);
    ValNext(s, i);
    RadixAdd(j, i);
    RadixNext(j + i);
    RowArithmetic(Val(c[..j + i]), Val(c0[..j + i]), Radix(j), Radix(i), Radix(j + i), carry, Val(s[..i]), y, s[i],
      c[j + i], z);
  }

  lemma RadixNext(n: nat)
    ensures Radix(n + 1) == BASE * Radix(n)
  {
  }

  lemma RowStarts(s: seq<Word>, c: seq<Word>, j: nat, y: nat)
    requires j + |s| < |c| && y < BASE
    ensures RowUpTo(s, c, c, j, 0, y, 0)
  {
    hide Radix;
    assert Val(s[..0]) == 0;
  }

  lemma RowEnds(s: seq<Word>, c0: seq<Word>, c: seq<Word>, j: nat, y: nat, carry: Word)
    requires RowUpTo(s, c0, c, j, |s|, y, carry)
    ensures var n := j + |s|;
            && Val(c[n := carry][..n + 1]) == Val(c0[..n]) + Radix(j) * (Val(s) * y)
            && c[n..] == c0[n..]
  {
    hide Val, Radix;
    var n := j + |s|;
    var c' := c[n := carry];
    ValNext(c', n);
    assert c'[..n] == c[..n] && s[..|s|] == s;
  }

  /** `xc0 .. xc0 + wa` gets `y` times the first factor added, and the carry is stored above. */
  method AddRow(x: array<Word>, wa: nat, c: array<Word>, j: nat, y: Word)
    requires wa <= x.Length && j + wa < c.Length && x != c && 0 < wa
    modifies c
    ensures Val(c[..j + wa + 1]) == Val(old(c[..j + wa])) + Radix(j) * (Val(x[..wa]) * y)
    ensures c[j + wa + 1..] == old(c[j + wa + 1..])
  {
    hide Val, Radix, RowUpTo;
    ghost var s, c0 := x[..wa], c[..];
    var carry: Word := 0;
    var i := 0;
    RowStarts(s, c0, j, y);
    while i < wa
      invariant 0 <= i <= wa && RowUpTo(s, c0, c[..], j, i, y, carry)
    {
      ghost var before := c[..];
      var product := x[i] * y + c[j + i] + carry;
      RowNext(s, c0, before, j, i, y, carry, product);
      var z: DoubleWord := product;
      carry := z / BASE;
      var low: Word := z % BASE;
      c[j + i] := low;
      assert c[..] == before[j + i := low];
      i := i + 1;
    }
    ghost var last := c[..];
    RowEnds(s, c0, last, j, y, carry);
    c[j + wa] := carry;
    assert c[..] == last[j + wa := carry];
    assert c[..j + wa + 1] == c[..][..j + wa + 1];
    assert c[j + wa + 1..] == last[j + wa..][1..] == c0[j + wa..][1..];
  }

  /** The product with the lowest `j` words of the second factor is complete. */
  ghost predicate MultUpTo(s: seq<Word>, t: seq<Word>, c: seq<Word>, j: nat) {
    && j <= |t| && |c| == |s| + |t|
    && Val(c[..j + |s|]) == Val(s) * Val(t[..j])
    && forall p :: j + |s| <= p < |c| ==> c[p] == 0
  }

  lemma MultNext(s: seq<Word>, t: seq<Word>, c: seq<Word>, c': seq<Word>, j: nat)
    requires MultUpTo(s, t, c, j) && j < |t| && |c'| == |c|
    requires Val(c'[..j + |s| + 1]) == Val(c[..j + |s|]) + Radix(j) * (Val(s) * t[j])
    requires c'[j + |s| + 1..] == c[j + |s| + 1..]
    ensures MultUpTo(s, t, c', j + 1)
  {
    hide Val, Radix;
    ValNext(t, j);
    MulDistribute(Val(s), Val(t[..j]), Radix(j), t[j]);
    MulSwap(Val(s), Radix(j), t[j]);
    forall p | j + 1 + |s| <= p < |c'|
      ensures c'[p] == 0
    {
      assert c'[p] == c'[j + |s| + 1..][p - (j + |s| + 1)] == c[j + |s| + 1..][p - (j + |s| + 1)];
    }
  }

  lemma MulSwap(a: int, b: int, c: int)
    ensures (a * b) * c == b * (a * c)
  {
  }

  lemma MultSkips(s: seq<Word>, t: seq<Word>, c: seq<Word>, j: nat)
    requires MultUpTo(s, t, c, j) && j < |t| && t[j] == 0
    ensures MultUpTo(s, t, c, j + 1)
  {
    hide Val, Radix;
    ValNext(t, j);
    ValNext(c, j + |s|);
  }

  lemma MultStarts(s: seq<Word>, t: seq<Word>, c: seq<Word>)
    requires |c| == |s| + |t| && forall p :: 0 <= p < |c| ==> c[p] == 0
    ensures MultUpTo(s, t, c, 0)
  {
    ValZeros(c[..|s|]);
    assert t[..0] == [];
    assert Val(t[..0]) == 0;
  }

  /** The size class of the longer factor, or the next one, has room for the product. */
  lemma ProductFits(k: nat, wa: nat, wb: nat)
    requires wb <= wa <= Pow2(k)
    ensures wa + wb <= Pow2(k + 1)
  {
  }

  method Mult(a0: Bigint, b0: Bigint) returns (c: Bigint)
    requires a0.Valid() && b0.Valid()
    ensures fresh(c) && fresh(c.x) && c.Valid()
    ensures c.Value() == a0.Value() * b0.Value()
    ensures 0 < a0.wds || 0 < b0.wds ==> c.Normal()
    ensures 0 < c.Value() ==> 0 < c.wds
  {
    hide Val, Radix, Pow2, MultUpTo;
    var a, b := a0, b0;
    if a.wds < b.wds {
      a, b := b, a;
    }
    var k, wa, wb := a.k, a.wds, b.wds;
    var wc := wa + wb;
    ProductFits(k, wa, wb);
    if wc > a.x.Length {
      k := k + 1;
    }
    c := new Bigint(k);
    var i := 0;
    while i < wc
      invariant 0 <= i <= wc && forall p :: 0 <= p < i ==> c.x[p] == 0
      modifies c.x
    {
      c.x[i] := 0;
      i := i + 1;
    }
    ghost var s, t := a.x[..wa], b.x[..wb];
    MultStarts(s, t, c.x[..wc]);
    var j := 0;
    while j < wb
      invariant 0 <= j <= wb && MultUpTo(s, t, c.x[..wc], j)
      modifies c.x
    {
      ghost var before := c.x[..wc];
      var y := b.x[j];
      if y != 0 {
        ghost var all := c.x[..];
        AddRow(a.x, wa, c.x, j, y);
        InPrefix(all, c.x[..], wc, j + wa);
        MultNext(s, t, before, c.x[..wc], j);
      } else {
        MultSkips(s, t, before, j);
      }
      j := j + 1;
    }
    MultEnds(s, t, c.x[..wc]);
    MulCommutes(a.Value(), b.Value());
    var n := Trim(c.x, wc);
    c.wds := n;
  }

  /** What holds of the whole memory holds of its first `wc` words. */
  lemma InPrefix(c0: seq<Word>, c: seq<Word>, wc: nat, n: nat)
    requires n < wc <= |c0| == |c| && c[n + 1..] == c0[n + 1..]
    ensures c0[..wc][..n] == c0[..n] && c[..wc][..n + 1] == c[..n + 1]
    ensures c[..wc][n + 1..] == c0[..wc][n + 1..]
  {
    assert c[..wc][n + 1..] == c[n + 1..][..wc - n - 1];
    assert c0[..wc][n + 1..] == c0[n + 1..][..wc - n - 1];
  }

  lemma MulCommutes(a: int, b: int)
    ensures a * b == b * a
  {
  }

  lemma MultEnds(s: seq<Word>, t: seq<Word>, c: seq<Word>)
    requires MultUpTo(s, t, c, |t|)
    ensures Val(c) == Val(s) * Val(t)
  {
    hide Val, Radix;
    assert c[..|t| + |s|] == c && t[..|t|] == t;
  }
}
