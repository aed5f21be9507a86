/** Shifts of multi-word integers, tests of low bits, and the scaling of the divisor
    (`src/jso_dg_dtoa.c`, lines 716-745, 983-1040, 1695-1758 and 2130-2140). */
module BigintShifts {
  import opened Words
  import opened Bigints

  // ---- Machine words ------------------------------------------------------

  lemma ShiftedOn(x0: int, k: nat, x: int, j: nat)
    requires x == x0 * Pow2(k)
    ensures x * Pow2(j) == x0 * Pow2(k + j)
  {
    Pow2Add(k, j);
    assert (x0 * Pow2(k)) * Pow2(j) == x0 * (Pow2(k) * Pow2(j));
  }

  /** Number of leading zero bits of a word; 32 for zero. */
  method Hi0bits(x0: Word) returns (k: nat)
    ensures x0 == 0 ==> k == 32
    ensures x0 != 0 ==> k < 32 && 0x8000_0000 <= x0 * Pow2(k) < BASE
  {
    var x: int := x0;
    k := 0;
    Pow2Values();
    assert x == x0 * Pow2(k);
    hide Pow2;
    if x < 0x1_0000 {
      ShiftedOn(x0, k, x, 16);
      k := 16;
      x := x * 0x1_0000;
    }
    if x < 0x100_0000 {
      ShiftedOn(x0, k, x, 8);
      k := k + 8;
      x := x * 0x100;
    }
    if x < 0x1000_0000 {
      ShiftedOn(x0, k, x, 4);
      k := k + 4;
      x := x * 0x10;
    }
    if x < 0x4000_0000 {
      ShiftedOn(x0, k, x, 2);
      k := k + 2;
      x := x * 4;
    }
    if x < 0x8000_0000 {
      ShiftedOn(x0, k, x, 1);
      k := k + 1;
      if x < 0x4000_0000 {
        return 32;
      }
    }
  }

  /** What a shift by the exponent of `p` leaves in the word. */
  function Kept(w: nat, p: nat): nat { w * p % BASE }

  /** What it pushes out of the word, when `q` is the rest of the word. */
  function PushedOut(w: nat, q: nat): nat
    requires 0 < q
  {
    w / q
  }

  /** What a left shift by `p`'s exponent keeps of a word and what it pushes out. */
  lemma ShiftWord(w: nat, p: nat, q: nat)
    requires w < BASE && p * q == BASE && 0 < p && 0 < q
    ensures w * p == Kept(w, p) + BASE * PushedOut(w, q)
    ensures Kept(w, p) + p <= BASE && PushedOut(w, q) < p
  {
    var h, l := w / q, w % q;
    assert w == q * h + l;
    assert w * p == (p * q) * h + p * l;
    MulMonotone(l, q - 1, p);
    assert p * (q - 1) == BASE - p;
    assert h < p by {
      if h >= p { MulMonotone(p, h, q); }
    }
    Remainder(w * p, h, p * l);
  }

  lemma Remainder(x: int, h: int, r: int)
    requires x == BASE * h + r && 0 <= r < BASE
    ensures x % BASE == r && x / BASE == h
  {
  }

  lemma Halves(k: nat)
    requires k < 32
    ensures Pow2(k) * Pow2(32 - k) == BASE
  {
    Pow2Add(k, 32 - k);
    Pow2Values();
  }

  lemma {:induction false} TopNonzero(s: seq<Word>)
    requires s != [] && Val(s) >= Radix(|s| - 1)
    ensures s[|s| - 1] != 0
  {
    ValTop(s);
  }

  // ---- Left shift ---------------------------------------------------------

  /** The lowest `i` words of `s` have been shifted to `t` above `n` zero words; `z` is
      pushed into the next word. */
  ghost predicate LshiftUpTo(s: seq<Word>, t: seq<Word>, n: nat, p: nat, i: nat, z: nat) {
    && i <= |s| && n + |s| < |t| && z < p
    && Val(t[..n + i]) + Radix(n + i) * z == Radix(n) * (Val(s[..i]) * p)
  }

  lemma LshiftArithmetic(t: int, rn: int, ri: int, rni: int, s: int, p: int, w: int, z: int, low: int, high: int)
    requires t + rni * z == rn * (s * p) && rni == rn * ri && w * p == low + BASE * high
    ensures (t + rni * (low + z)) + (BASE * rni) * high == rn * ((s + ri * w) * p)
  {
    assert rni * (low + z) == rni * low + rni * z;
    assert (BASE * rni) * high == rni * (BASE * high);
    assert rni * low + rni * (BASE * high) == rni * (w * p);
    assert rn * ((s + ri * w) * p) == rn * (s * p) + (rn * ri) * (w * p);
  }

  lemma LshiftNext(s: seq<Word>, t: seq<Word>, n: nat, p: nat, q: nat, i: nat, z: nat)
    requires LshiftUpTo(s, t, n, p, i, z) && i < |s| && p * q == BASE && 0 < p && 0 < q
    ensures Kept(s[i], p) + z < BASE && PushedOut(s[i], q) < p <= BASE
    ensures LshiftUpTo(s, t[n + i := Kept(s[i], p) + z], n, p, i + 1, PushedOut(s[i], q))
  {
    hide Val, Radix;
    ShiftWord(s[i], p, q);
    var low, high := Kept(s[i], p), PushedOut(s[i], q);
    var t' := t[n + i := low + z];
    ValNext(t', n + i);
    assert t'[..n + i] == t[..n + i];
    ValNext(s, i);
    RadixAdd(n, i);
    RadixNext(n + i);
    LshiftArithmetic(Val(t[..n + i]), Radix(n), Radix(i), Radix(n + i), Val(s[..i]), p, s[i], z, low, high);
  }

  lemma LshiftStarts(s: seq<Word>, t: seq<Word>, n: nat, p: nat)
    requires n + |s| < |t| && 0 < p && forall j :: 0 <= j < n ==> t[j] == 0
    ensures LshiftUpTo(s, t, n, p, 0, 0)
  {
    ValZeros(t[..n]);
    assert s[..0] == [];
  }

  lemma LshiftEnds(s: seq<Word>, t: seq<Word>, n: nat, p: nat, z: Word, k: nat)
    requires LshiftUpTo(s, t, n, p, |s|, z) && k / 32 == n && p == Pow2(k % 32)
    ensures var m := n + |s|;
            && Val(t[m := z][..m + 1]) == Val(s) * Pow2(k)
            && (z == 0 ==> Val(t[..m]) == Val(s) * Pow2(k))
  {
    hide Val, Radix, Pow2;
    var m := n + |s|;
    var t' := t[m := z];
    ValNext(t', m);
    assert t'[..m] == t[..m] && s[..|s|] == s;
    RadixIsPow2(n);
    Pow2Add(32 * n, k % 32);
    MulRotate(Radix(n), Val(s), p);
  }

  lemma MulRotate(a: int, b: int, c: int)
    ensures a * (b * c) == b * (a * c)
  {
  }

  /** The loop of `lshift` that moves and shifts the words. */
  method LshiftWords(x: array<Word>, wds: nat, x1: array<Word>, n: nat, k: nat) returns (z: Word)
    requires 0 < wds <= x.Length && n + wds < x1.Length && x != x1 && n == k / 32
    requires forall j :: 0 <= j < n ==> x1[j] == 0
    modifies x1
    ensures LshiftUpTo(x[..wds], x1[..], n, Pow2(k % 32), wds, z)
  {
    hide Val, Radix, Pow2, LshiftUpTo, Kept, PushedOut;
    ghost var s := x[..wds];
    var p, q := Pow2(k % 32), Pow2(32 - k % 32);
    Halves(k % 32);
    LshiftStarts(s, x1[..], n, p);
    z := 0;
    var i := 0;
    while i < wds
      invariant 0 <= i <= wds && LshiftUpTo(s, x1[..], n, p, i, z)
    {
      ghost var t := x1[..];
      LshiftNext(s, t, n, p, q, i, z);
      var w: Word := Kept(x[i], p) + z;
      x1[n + i] := w;
      assert x1[..] == t[n + i := w];
      z := PushedOut(x[i], q);
      i := i + 1;
    }
  }

  method Lshift(b: Bigint, k: nat) returns (b1: Bigint)
    requires b.Valid() && b.Normal() && 0 < b.wds
    ensures fresh(b1) && fresh(b1.x) && b1.Valid() && 0 < b1.wds
    ensures b1.Value() == b.Value() * Pow2(k)
    ensures 0 < b.Value() ==> b1.Normal()
  {
    hide Val, Radix, LshiftUpTo;
    var n, k1 := k / 32, b.k;
    var n1 := n + b.wds + 1;
    var room := b.x.Length;
    while n1 > room
      invariant room == Pow2(k1)
      decreases n1 - room
    {
      assert Pow2(k1 + 1) == 2 * Pow2(k1);
      room, k1 := 2 * room, k1 + 1;
    }
    hide Pow2;
    b1 := new Bigint(k1);
    var i := 0;
    while i < n
      invariant 0 <= i <= n && forall j :: 0 <= j < i ==> b1.x[j] == 0
      modifies b1.x
    {
      b1.x[i] := 0;
      i := i + 1;
    }
    var z := LshiftWords(b.x, b.wds, b1.x, n, k);
    ghost var s, t := b.x[..b.wds], b1.x[..];
    LshiftEnds(s, t, n, Pow2(k % 32), z, k);
    var m := n + b.wds;
    b1.x[m] := z;
    assert b1.x[..] == t[m := z] && b1.x[..m] == t[..m] && b1.x[..m + 1] == b1.x[..][..m + 1];
    b1.wds := if z != 0 then m + 1 else m;
    if 0 < b.Value() && z == 0 {
      ShiftedTop(s, b1.x[..m], n, k);
    }
  }

  /** The topmost word of the result is not zero. */
  lemma ShiftedTop(s: seq<Word>, t: seq<Word>, n: nat, k: nat)
    requires s != [] && 0 < Val(s) && (|s| > 1 ==> s[|s| - 1] != 0)
    requires n == k / 32 && |t| == n + |s| && Val(t) == Val(s) * Pow2(k)
    ensures t[|t| - 1] != 0
  {
    hide Val, Radix, Pow2;
    ValTop(s);
    assert s[|s| - 1] != 0 by {
      if |s| == 1 && s[0] == 0 { ValZeros(s); }
    }
    MulMonotone(1, s[|s| - 1], Radix(|s| - 1));
    RadixIsPow2(n);
    Pow2Monotone(32 * n, k);
    MulMonotone(Radix(|s| - 1), Val(s), Radix(n));
    MulMonotone(Radix(n), Pow2(k), Val(s));
    RadixAdd(|s| - 1, n);
    TopNonzero(t);
  }

  // ---- Right shift --------------------------------------------------------

  lemma DivUnique(x: int, d: int, q: int, r: int)
    requires x == d * q + r && 0 <= r < d
    ensures x / d == q && x % d == r
  {
    DivBounds(x / d, q, d, x % d, r);
  }

  lemma DivBounds(a: int, b: int, d: int, ra: int, rb: int)
    requires 0 <= ra < d && 0 <= rb < d && d * a + ra == d * b + rb
    ensures a == b
  {
    assert a < b ==> d * (a + 1) <= d * b;
    assert b < a ==> d * (b + 1) <= d * a;
  }

  /** Dividing by a product: whole words first, then the bits in a word. */
  lemma DivTwice(low: int, radix: int, high: int, p: int)
    requires 0 <= low < radix && 0 < p && 0 <= high
    ensures (low + radix * high) / (radix * p) == high / p
    ensures (low + radix * high) % (radix * p) == low + radix * (high % p)
  {
    var q, r := high / p, high % p;
    assert high == p * q + r;
    assert radix * high == (radix * p) * q + radix * r;
    assert radix * r + radix <= radix * p by {
      MulMonotone(r + 1, p, radix);
      assert radix * (r + 1) == radix * r + radix;
    }
    DivUnique(low + radix * high, radix * p, q, low + radix * r);
  }

  /** The value of the words from `n` on, divided further. */
  lemma ShiftedValue(s: seq<Word>, n: nat, k: nat)
    requires n == k / 32 && n <= |s|
    ensures Val(s) / Pow2(k) == Val(s[n..]) / Pow2(k % 32)
    ensures Val(s) % Pow2(k) == Val(s[..n]) + Radix(n) * (Val(s[n..]) % Pow2(k % 32))
  {
    hide Val, Radix, Pow2;
    assert s == s[..n] + s[n..];
    ValConcat(s[..n], s[n..]);
    ValBound(s[..n]);
    RadixIsPow2(n);
    Pow2Add(32 * n, k % 32);
    DivTwice(Val(s[..n]), Radix(n), Val(s[n..]), Pow2(k % 32));
  }

  /** `i` words of `s` have been consumed; `y` is what is left of the last of them. */
  ghost predicate RshiftUpTo(s: seq<Word>, t: seq<Word>, p: nat, q: nat, i: nat, y: nat) {
    && 0 < i <= |s| <= |t| && y < q && 0 < p && p * q == BASE
    && p * (Val(t[..i - 1]) + Radix(i - 1) * y) + s[0] % p == Val(s[..i])
  }

  lemma RshiftArithmetic(p: int, q: int, t: int, r: int, y: int, first: int, s: int, w: int, kept: int, out: int)
    requires p * (t + r * y) + first == s && w * q == kept + BASE * out && p * q == BASE
    ensures p * ((t + r * (y + kept)) + (BASE * r) * out) + first == s + (BASE * r) * w
  {
    assert (t + r * (y + kept)) + (BASE * r) * out == (t + r * y) + r * (kept + BASE * out);
    assert p * ((t + r * y) + r * (w * q)) == p * (t + r * y) + p * (r * (w * q));
    assert p * (r * (w * q)) == (p * q) * (r * w);
  }

  lemma RshiftNext(s: seq<Word>, t: seq<Word>, p: nat, q: nat, i: nat, y: nat)
    requires RshiftUpTo(s, t, p, q, i, y) && i < |s|
    ensures 0 < q && y + Kept(s[i], q) < BASE && PushedOut(s[i], p) < BASE
    ensures RshiftUpTo(s, t[i - 1 := y + Kept(s[i], q)], p, q, i + 1, PushedOut(s[i], p))
  {
    hide Val, Radix;
    ShiftWord(s[i], q, p);
    var w := y + Kept(s[i], q);
    var t' := t[i - 1 := w];
    ValNext(t', i - 1);
    assert t'[..i - 1] == t[..i - 1];
    ValNext(s, i);
    RadixNext(i - 1);
    RshiftArithmetic(p, q, Val(t[..i - 1]), Radix(i - 1), y, s[0] % p, Val(s[..i]), s[i],
      Kept(s[i], q), PushedOut(s[i], p));
  }

  lemma RshiftStarts(s: seq<Word>, t: seq<Word>, p: nat, q: nat)
    requires s != [] && |s| <= |t| && 0 < p && p * q == BASE
    ensures RshiftUpTo(s, t, p, q, 1, s[0] / p)
  {
    assert s[..1][..0] == [];
    assert Val(s[..1]) == s[0] && Val(t[..0]) == 0 && Radix(0) == 1;
    hide Val, Radix;
    assert s[0] == p * (s[0] / p) + s[0] % p;
    if s[0] / p >= q { MulMonotone(q, s[0] / p, p); }
  }

  lemma RshiftEnds(s: seq<Word>, t: seq<Word>, p: nat, q: nat, y: Word)
    requires RshiftUpTo(s, t, p, q, |s|, y)
    ensures Val(t[|s| - 1 := y][..|s|]) == Val(s) / p
    ensures y == 0 ==> Val(t[..|s| - 1]) == Val(s) / p
  {
    hide Val, Radix;
    var n := |s| - 1;
    var t' := t[n := y];
    ValNext(t', n);
    assert t'[..n] == t[..n] && s[..|s|] == s;
    DivUnique(Val(s), p, Val(t[..n]) + Radix(n) * y, s[0] % p);
  }

  /** The branch of `rshift` for a shift that is not a whole number of words. */
  method RshiftBits(x: array<Word>, wds: nat, n: nat, k: nat) returns (m: nat)
    requires n < wds <= x.Length && n == k / 32 && 0 < k % 32
    modifies x
    ensures wds - n - 1 <= m <= wds - n
    ensures Val(x[..m]) == Val(old(x[..wds])[n..]) / Pow2(k % 32)
    ensures m == wds - n ==> x[m - 1] != 0
  {
    hide Val, Radix, Pow2, RshiftUpTo, Kept, PushedOut;
    ghost var s := x[..wds][n..];
    var p, q := Pow2(k % 32), Pow2(32 - k % 32);
    Halves(k % 32);
    RshiftStarts(s, x[..], p, q);
    var y: Word := PushedOutFits(x[n], p);
    var i := 1;
    while n + i < wds
      invariant 1 <= i <= wds - n && RshiftUpTo(s, x[..], p, q, i, y)
      invariant x[n + i..wds] == s[i..]
    {
      ghost var t := x[..];
      assert x[n + i] == x[n + i..wds][0] == s[i];
      RshiftNext(s, t, p, q, i, y);
      var w: Word := y + Kept(x[n + i], q);
      y := PushedOut(x[n + i], p);
      x[i - 1] := w;
      assert x[..] == t[i - 1 := w];
      assert x[n + i + 1..wds] == t[n + i..wds][1..] == s[i..][1..];
      i := i + 1;
    }
    ghost var t := x[..];
    RshiftEnds(s, t, p, q, y);
    x[i - 1] := y;
    assert x[..] == t[i - 1 := y] && x[..i - 1] == t[..i - 1] && x[..i] == x[..][..i];
    m := if y != 0 then i else i - 1;
  }

  function PushedOutFits(w: Word, p: nat): (r: Word)
    requires 0 < p
    ensures r == w / p
  {
    w / p
  }

  /** The branch of `rshift` for a shift by whole words. */
  method RshiftWords(x: array<Word>, wds: nat, n: nat) returns (m: nat)
    requires n < wds <= x.Length
    modifies x
    ensures m == wds - n && x[..m] == old(x[..wds])[n..]
  {
    ghost var s := x[..wds];
    m := 0;
    while n + m < wds
      invariant 0 <= m <= wds - n && x[..m] == s[n..n + m] && x[n + m..wds] == s[n + m..]
    {
      assert x[n + m] == x[n + m..wds][0] == s[n + m];
      ghost var before := x[..];
      x[m] := x[n + m];
      assert x[..m] == before[..m];
      assert x[n + m + 1..wds] == before[n + m..wds][1..];
      m := m + 1;
    }
    assert s[n..n + m] == s[n..];
  }

  method Rshift(b: Bigint, k: nat)
    requires b.Valid() && b.Normal()
    modifies b, b.x
    ensures b.Valid() && b.Normal() && b.wds <= old(b.wds)
    ensures b.Value() == old(b.Value()) / Pow2(k)
  {
    hide Val, Radix, Pow2;
    ghost var s := b.x[..b.wds];
    var n, m := k / 32, 0;
    if n < b.wds {
      ShiftedValue(s, n, k);
      if k % 32 != 0 {
        m := RshiftBits(b.x, b.wds, n, k);
        if 0 < m < b.wds - n { RshiftedTop(s[n..], b.x[..m], k % 32); }
      } else {
        m := RshiftWords(b.x, b.wds, n);
        Pow2Zero();
        DivByOne(Val(s[n..]));
      }
    } else {
      ShiftedAway(s, k);
    }
    b.wds := m;
    if b.wds == 0 {
      b.x[0] := 0;
      assert b.x[..0] == [];
    }
  }

  lemma DivByOne(x: int)
    ensures x / 1 == x
  {
  }

  lemma Pow2Zero()
    ensures Pow2(0) == 1
  {
  }

  lemma ShiftedAway(s: seq<Word>, k: nat)
    requires |s| <= k / 32
    ensures Val(s) / Pow2(k) == 0 && Val(s) % Pow2(k) == Val(s) && Val([]) == 0
  {
    ValBound(s);
    RadixIsPow2(|s|);
    Pow2Monotone(32 * |s|, k);
    hide Val, Radix, Pow2;
    DivUnique(Val(s), Pow2(k), 0, Val(s));
  }

  lemma RshiftedTop(s: seq<Word>, t: seq<Word>, k: nat)
    requires |s| == |t| + 1 && t != [] && s[|s| - 1] != 0 && k < 32
    requires Val(t) == Val(s) / Pow2(k)
    ensures t[|t| - 1] != 0
  {
    hide Val, Radix, Pow2;
    var p, q, m := Pow2(k), Pow2(32 - k), |t|;
    Halves(k);
    ValTop(s);
    MulMonotone(1, s[m], Radix(m));
    RadixNext(m - 1);
    assert Radix(m) == p * (q * Radix(m - 1));
    if Val(s) / p < Radix(m - 1) {
      QuotientAtLeast(Val(s), p, q * Radix(m - 1));
      MulMonotone(1, q, Radix(m - 1));
    }
    TopNonzero(t);
  }

  lemma QuotientAtLeast(x: int, d: int, a: int)
    requires 0 < d && d * a <= x
    ensures a <= x / d
  {
    var q, r := x / d, x % d;
    assert x == d * q + r;
    assert q < a ==> d * (q + 1) <= d * a;
  }

  // ---- Low bits -----------------------------------------------------------

  method AnyOn(b: Bigint, k: nat) returns (r: bool)
    requires b.Valid()
    ensures r <==> b.Value() % Pow2(k) != 0
  {
    hide Val, Radix, Pow2;
    ghost var s := b.x[..b.wds];
    var n, nwds := k / 32, b.wds;
    if n > nwds {
      n := nwds;
    } else if n < nwds && k % 32 != 0 {
      var x2 := b.x[n];
      var x1 := x2 / Pow2(k % 32) * Pow2(k % 32);
      LowBits(s, n, k);
      if x1 != x2 {
        return true;
      }
    }
    if n < nwds && k % 32 == 0 { LowBits(s, n, k); Pow2Zero(); }
    if n == nwds { ShiftedAway(s, k); assert s[..n] == s; }
    var i := n;
    while 0 < i
      invariant 0 <= i <= n && forall j :: i <= j < n ==> b.x[j] == 0
    {
      i := i - 1;
      if b.x[i] != 0 {
        if Val(s[..n]) == 0 { ZeroVal(s[..n]); }
        return true;
      }
    }
    ValZeros(s[..n]);
    return false;
  }

  /** The bits below `k` are the words below `n` and the low bits of word `n`. */
  lemma LowBits(s: seq<Word>, n: nat, k: nat)
    requires n == k / 32 && n < |s|
    ensures var p := Pow2(k % 32);
            && (s[n] / p * p != s[n] ==> Val(s) % Pow2(k) != 0)
            && (s[n] / p * p == s[n] ==> Val(s) % Pow2(k) == Val(s[..n]))
  {
    hide Val, Radix, Pow2;
    var p := Pow2(k % 32);
    ShiftedValue(s, n, k);
    FirstWordModulo(s[n..], k % 32);
    assert s[n] == p * (s[n] / p) + s[n] % p;
    if s[n] % p != 0 {
      MulMonotone(1, s[n] % p, Radix(n));
    }
  }

  lemma SplitFirst(s: seq<Word>)
    requires s != []
    ensures Val(s) == s[0] + BASE * Val(s[1..])
  {
    assert s == [s[0]] + s[1..];
    ValConcat([s[0]], s[1..]);
    assert [s[0]][..0] == [];
    assert Val([s[0]]) == s[0] && Radix(1) == BASE;
  }

  lemma ModuloFactor(w: nat, rest: nat, p: nat, q: nat)
    requires 0 < p && p * q == BASE
    ensures (w + BASE * rest) % p == w % p
  {
    var h, l := w / p, w % p;
    assert w == p * h + l;
    assert BASE * rest == p * (q * rest);
    assert p * h + p * (q * rest) == p * (h + q * rest);
    DivUnique(w + BASE * rest, p, h + q * rest, l);
  }

  lemma FirstWordModulo(s: seq<Word>, k: nat)
    requires s != [] && k < 32
    ensures Val(s) % Pow2(k) == s[0] % Pow2(k)
  {
    hide *;
    Halves(k);
    SplitFirst(s);
    ModuloFactor(s[0], Val(s[1..]), Pow2(k), Pow2(32 - k));
  }

  // ---- Scaling the divisor ------------------------------------------------

  /** The top word has exactly four leading zero bits. */
  predicate FourZeroBits(s: seq<Word>) {
    s != [] && 0x800_0000 <= s[|s| - 1] < 0x1000_0000
  }

  /** By how much to shift so that, together with a shift by `p2`, the top word of the
      result has exactly four leading zero bits; `m` is the number of words below it. */
  method Dshift(b: Bigint, p2: nat) returns (rv: nat, ghost m: nat)
    requires b.Valid() && b.Normal() && 0 < b.Value()
    ensures rv < 32
    ensures Radix(m) * 0x800_0000 <= b.Value() * Pow2(p2 + rv) < Radix(m) * 0x1000_0000
  {
    hide Val, Radix, Pow2;
    ghost var s := b.x[..b.wds];
    HasTop(s);
    var hi := Hi0bits(b.x[b.wds - 1]);
    rv := (hi - 4 - p2) % 32;
    ghost var q := (p2 + rv + 4 - hi) / 32;
    assert p2 + rv + 4 == hi + 32 * q;
    m := b.wds - 1 + q;
    ScaledValue(s, hi, p2 + rv, q);
  }

  lemma HasTop(s: seq<Word>)
    requires 0 < Val(s) && (|s| > 1 ==> s[|s| - 1] != 0)
    ensures s != [] && s[|s| - 1] != 0
  {
    if |s| == 1 && s[0] == 0 { ValZeros(s); }
  }

  lemma ScaledValue(s: seq<Word>, hi: nat, t: nat, q: nat)
    requires s != [] && hi < 32 && 0x8000_0000 <= s[|s| - 1] * Pow2(hi) < BASE && t + 4 == hi + 32 * q
    ensures var m := |s| - 1 + q;
            Radix(m) * 0x800_0000 <= Val(s) * Pow2(t) < Radix(m) * 0x1000_0000
  {
    hide *;
    var n, top, ph := |s| - 1, s[|s| - 1], Pow2(hi);
    ValTop(s);
    Halves(hi);
    TopScaled(Val(s), Radix(n), top, ph, Pow2(32 - hi));
    Pow2Add(t, 4);
    Pow2Add(hi, 32 * q);
    RadixIsPow2(q);
    RadixAdd(n, q);
    Pow2Values();
    WordsScaled(Val(s), Radix(n), Pow2(t), ph, Radix(q));
  }

  lemma TopScaled(v: nat, r: nat, top: int, p: nat, q: nat)
    requires r * top <= v < r * (top + 1) && 0 < p && p * q == BASE && 0x8000_0000 <= top * p < BASE
    ensures r * 0x8000_0000 <= v * p < r * BASE
  {
    if q <= top { MulMonotone(q, top, p); }
    MulMonotone(top + 1, q, p);
    MulMonotone(r * top, v, p);
    MulMonotone(v + 1, r * (top + 1), p);
    assert (r * top) * p == r * (top * p) && (r * (top + 1)) * p == r * ((top + 1) * p);
    MulMonotone(0x8000_0000, top * p, r);
    MulMonotone((top + 1) * p, BASE, r);
    assert (v + 1) * p == v * p + p;
  }

  lemma WordsScaled(v: nat, r: nat, pt: nat, p: nat, rq: nat)
    requires r * 0x8000_0000 <= v * p < r * BASE && 0 < rq && pt * 16 == p * rq
    ensures (r * rq) * 0x800_0000 <= v * pt < (r * rq) * 0x1000_0000
  {
    assert (v * p) * rq == v * (p * rq) == v * (pt * 16) == 16 * (v * pt);
    MulMonotone(r * 0x8000_0000, v * p, rq);
    MulMonotone(v * p + 1, r * BASE, rq);
    assert (v * p + 1) * rq == (v * p) * rq + rq;
    assert (r * 0x8000_0000) * rq == (r * rq) * 0x8000_0000 && (r * BASE) * rq == (r * rq) * BASE;
  }
}
